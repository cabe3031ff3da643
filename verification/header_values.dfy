/**
  Lexical parts of the Accept header: splitting at top-level commas, and quality values.
 */
module HeaderValues {
  import opened Documents
  import opened Text
  import opened MemberNames

  // Splitting.

  /** Where the scan is: outside quotes, inside them, or right after a backslash inside them. */
  datatype State = Plain | Quoted | Escaped

  function Next(state: State, c: char): State {
    match state
    case Escaped => Quoted
    case Quoted => if c == '\\' then Escaped else if c == '"' then Plain else Quoted
    case Plain => if c == '"' then Quoted else Plain
  }

  function After(state: State, s: string): State
    decreases |s|
  {
    if s == "" then state else After(Next(state, s[0]), s[1..])
  }

  /** Some comma of the text is outside quotes. */
  predicate HasSeparator(state: State, s: string)
    decreases |s|
  {
    s != "" && ((state == Plain && s[0] == ',') || HasSeparator(Next(state, s[0]), s[1..]))
  }

  /** A segment: no separator in it, and closed quotes unless it is the last one. */
  predicate IsSegment(s: string, last: bool) {
    !HasSeparator(Plain, s) && (last || After(Plain, s) == Plain)
  }

  ghost predicate AreSegments(segments: seq<string>) {
    segments != [] && forall i :: 0 <= i < |segments| ==> IsSegment(segments[i], i == |segments| - 1)
  }

  /** The segments of a text that is read from some state on. */
  function Segments(state: State, s: string): (segments: seq<string>)
    ensures segments != []
    decreases |s|
  {
    if s == "" then [""]
    else if state == Plain && s[0] == ',' then [""] + Segments(Plain, s[1..])
    else OntoFirst([s[0]], Segments(Next(state, s[0]), s[1..]))
  }

  /** Puts text in front of the first segment. */
  function OntoFirst(text: string, segments: seq<string>): (extended: seq<string>)
    requires segments != []
    ensures extended != []
  {
    [text + segments[0]] + segments[1..]
  }

  lemma OntoFirstAppends(text: string, more: string, segments: seq<string>)
    requires segments != []
    ensures OntoFirst(text, OntoFirst(more, segments)) == OntoFirst(text + more, segments)
  {
    assert text + (more + segments[0]) == text + more + segments[0];
  }

  lemma OntoFirstNothing(segments: seq<string>)
    requires segments != []
    ensures OntoFirst("", segments) == segments
  {
    assert "" + segments[0] == segments[0];
  }

  /** `splitHeaderValues`. */
  method SplitHeaderValues(header: string) returns (values: seq<string>)
    ensures values == Segments(Plain, header)
  {
    hide HasSeparator, After;
    values := [];
    var start, quoted, escaped := 0, false, false;
    OntoFirstNothing(Segments(Plain, header));
    assert header[0..] == header && header[0..0] == "";
    for index := 0 to |header|
      invariant 0 <= start <= index && (escaped ==> quoted)
      invariant values + OntoFirst(header[start..index], Segments(StateOf(quoted, escaped), header[index..]))
        == Segments(Plain, header)
    {
      var character := header[index];
      var state := StateOf(quoted, escaped);
      SegmentsStep(values, header, start, index, state);
      if escaped {
        escaped := false;
      } else if character == '\\' && quoted {
        escaped := true;
      } else if character == '"' {
        quoted := !quoted;
      } else if character == ',' && !quoted {
        values := values + [header[start..index]];
        start := index + 1;
        assert header[start..start] == "";
      }
    }
    assert header[start..|header|] == header[start..] && header[|header|..] == "";
    assert header[start..] + "" == header[start..];
    values := values + [header[start..]];
  }

  function StateOf(quoted: bool, escaped: bool): State {
    if escaped then Escaped else if quoted then Quoted else Plain
  }

  lemma SegmentsStep(values: seq<string>, header: string, start: nat, index: nat, state: State)
    requires start <= index < |header|
    ensures var c, rest := header[index], header[index + 1..];
      values + OntoFirst(header[start..index], Segments(state, header[index..])) ==
        if state == Plain && c == ',' then values + [header[start..index]] + OntoFirst("", Segments(Plain, rest))
        else values + OntoFirst(header[start..index + 1], Segments(Next(state, c), rest))
  {
    hide HasSeparator, After;
    var c, rest := header[index], header[index + 1..];
    assert header[index..][0] == c && header[index..][1..] == rest;
    if state == Plain && c == ',' {
      OntoFirstNothing(Segments(Plain, rest));
      assert OntoFirst(header[start..index], [""] + Segments(Plain, rest)) == [header[start..index]] + Segments(Plain, rest) by {
        assert header[start..index] + "" == header[start..index];
      }
      assert values + ([header[start..index]] + Segments(Plain, rest))
        == values + [header[start..index]] + Segments(Plain, rest);
    } else {
      assert header[start..index + 1] == header[start..index] + [c];
      OntoFirstAppends(header[start..index], [c], Segments(Next(state, c), rest));
    }
  }

  lemma JoinStep(segments: seq<string>)
    requires |segments| > 1
    ensures Join(segments, ',') == segments[0] + "," + Join(segments[1..], ',')
  {
  }

  lemma JoinOntoFirst(text: string, segments: seq<string>)
    requires segments != []
    ensures Join(OntoFirst(text, segments), ',') == text + Join(segments, ',')
  {
    if |segments| > 1 {
      JoinStep(segments);
      JoinStep(OntoFirst(text, segments));
      assert OntoFirst(text, segments)[1..] == segments[1..];
    }
  }

  /** The segments rejoin to the text, and each of them is one. */
  lemma {:induction false} SegmentsRejoin(state: State, s: string)
    ensures Join(Segments(state, s), ',') == s
    ensures var segments := Segments(state, s);
      && !HasSeparator(state, segments[0])
      && (|segments| > 1 ==> After(state, segments[0]) == Plain)
      && forall i :: 0 < i < |segments| ==> IsSegment(segments[i], i == |segments| - 1)
    decreases |s|
  {
    if s != "" {
      var next := Next(state, s[0]);
      var rest := Segments(next, s[1..]);
      SegmentsRejoin(next, s[1..]);
      if state == Plain && s[0] == ',' {
        var segments := [""] + rest;
        assert segments[1..] == rest;
        JoinStep(segments);
        assert forall i :: 0 < i < |segments| ==> segments[i] == rest[i - 1];
      } else {
        JoinOntoFirst([s[0]], rest);
        assert s == [s[0]] + s[1..];
        var first := [s[0]] + rest[0];
        assert first[0] == s[0] && first[1..] == rest[0];
      }
    }
  }

  lemma {:induction false} SegmentThenRest(state: State, segment: string, rest: string)
    requires !HasSeparator(state, segment) && After(state, segment) == Plain
    ensures Segments(state, segment + "," + rest) == [segment] + Segments(Plain, rest)
    decreases |segment|
  {
    var s := segment + "," + rest;
    if segment == "" {
      assert s[0] == ',' && s[1..] == rest;
    } else {
      assert s[0] == segment[0] && s[1..] == segment[1..] + "," + rest;
      SegmentThenRest(Next(state, segment[0]), segment[1..], rest);
      assert OntoFirst([segment[0]], [segment[1..]] + Segments(Plain, rest))
        == [[segment[0]] + segment[1..]] + Segments(Plain, rest);
      assert [segment[0]] + segment[1..] == segment;
    }
  }

  lemma {:induction false} LastSegment(state: State, segment: string)
    requires !HasSeparator(state, segment)
    ensures Segments(state, segment) == [segment]
    decreases |segment|
  {
    if segment != "" {
      LastSegment(Next(state, segment[0]), segment[1..]);
      assert [segment[0]] + segment[1..] == segment;
    }
  }

  lemma {:induction false} JoinedSegmentsSplit(segments: seq<string>)
    requires AreSegments(segments)
    ensures Segments(Plain, Join(segments, ',')) == segments
  {
    assert IsSegment(segments[0], 0 == |segments| - 1);
    if |segments| == 1 {
      LastSegment(Plain, segments[0]);
    } else {
      var rest := segments[1..];
      assert forall i :: 0 <= i < |rest| ==> rest[i] == segments[i + 1];
      JoinedSegmentsSplit(rest);
      JoinStep(segments);
      SegmentThenRest(Plain, segments[0], Join(rest, ','));
      assert [segments[0]] + rest == segments;
    }
  }

  /**
    Splitting is the inverse of joining: the result is the only way to write the header as a comma
    join of segments.
   */
  lemma SplitIsUnique(header: string, segments: seq<string>)
    ensures Segments(Plain, header) == segments <==> AreSegments(segments) && Join(segments, ',') == header
  {
    SegmentsRejoin(Plain, header);
    if AreSegments(segments) && Join(segments, ',') == header {
      JoinedSegmentsSplit(segments);
    }
  }

  // Quality values, in thousandths.

  /** The fraction of a `qvalue` in RFC 9110, section 12.4.2: at most three digits. */
  predicate IsFraction(fraction: string) {
    |fraction| <= 3 && forall i | 0 <= i < |fraction| :: Digit(fraction[i])
  }

  /** `qvalue = ( "0" [ "." 0*3DIGIT ] ) / ( "1" [ "." 0*3("0") ] )`. */
  predicate IsQuality(value: string) {
    value == "0" || value == "1"
    || (|value| >= 2 && value[1] == '.' && value[0] in "01" && IsFraction(value[2..])
        && (value[0] == '1' ==> forall i | 2 <= i < |value| :: value[i] == '0'))
  }

  function DigitValue(c: char): nat {
    if Digit(c) then c as int - '0' as int else 0
  }

  /** The digit at a position, zero beyond the end. */
  function DigitAt(fraction: string, i: nat): nat {
    if i < |fraction| then DigitValue(fraction[i]) else 0
  }

  function Thousandths(value: string): nat
    requires IsQuality(value)
  {
    if value[0] == '1' then 1000
    else if |value| == 1 then 0
    else DigitAt(value[2..], 0) * 100 + DigitAt(value[2..], 1) * 10 + DigitAt(value[2..], 2)
  }

  /** `parseQuality`: accepts the RFC's quality values, with their value. */
  method ParseQuality(value: string) returns (quality: Option<nat>)
    ensures quality.Some? <==> IsQuality(value)
    ensures quality.Some? ==> quality.value == Thousandths(value) <= 1000
  {
    if value == "0" {
      return Some(0);
    }
    if value == "1" {
      return Some(1000);
    }
    if |value| < 2 || |value| > 5 || value[1] != '.' || (value[0] != '0' && value[0] != '1') {
      return None;
    }
    var fraction := value[2..];
    var sum, place := 0, 100;
    for i := 0 to |fraction|
      invariant forall j :: 0 <= j < i ==> Digit(fraction[j]) && (value[0] == '1' ==> fraction[j] == '0')
      invariant place == (if i == 0 then 100 else if i == 1 then 10 else if i == 2 then 1 else 0)
      invariant sum == (if i > 0 then DigitAt(fraction, 0) * 100 else 0)
        + (if i > 1 then DigitAt(fraction, 1) * 10 else 0) + (if i > 2 then DigitAt(fraction, 2) else 0)
    {
      var digit := fraction[i];
      assert value[i + 2] == digit;
      if digit < '0' || digit > '9' || (value[0] == '1' && digit != '0') {
        return None;
      }
      sum := sum + DigitValue(digit) * place;
      place := place / 10;
    }
    if value[0] == '1' {
      return Some(1000);
    }
    return Some(sum);
  }

  /** The digits of a fraction, filled up with zeros to thousandths. */
  ghost function Filled(fraction: string): string {
    fraction + (if |fraction| == 0 then "000" else if |fraction| == 1 then "00" else if |fraction| == 2 then "0" else "")
  }

  predicate AreQualityDigits(fraction: string) {
    |fraction| <= 3 && forall i | 0 <= i < |fraction| :: 48 <= fraction[i] as int <= 57
  }

  /** A quality value is written as 0 or 1, alone or with up to three decimals that do not exceed one. */
  lemma QualitiesOnText(value: string, quality: nat)
    ensures IsQuality(value) && Thousandths(value) == quality <==>
      || (value == "0" && quality == 0)
      || (value == "1" && quality == 1000)
      || (exists fraction ::
            && value == "0." + fraction && AreQualityDigits(fraction)
            && quality == 100 * (Filled(fraction)[0] as int - 48) + 10 * (Filled(fraction)[1] as int - 48)
                          + (Filled(fraction)[2] as int - 48))
      || (exists fraction ::
            && value == "1." + fraction && AreQualityDigits(fraction) && quality == 1000
            && forall i :: 0 <= i < |fraction| ==> fraction[i] == '0')
  {
    if |value| >= 2 {
      assert value[0] == '0' && value[1] == '.' ==> value == "0." + value[2..];
      assert value[0] == '1' && value[1] == '.' ==> value == "1." + value[2..];
      assert forall i :: 2 <= i < |value| ==> value[i] == value[2..][i - 2];
    }
    forall fraction | value == "0." + fraction || value == "1." + fraction ensures value[2..] == fraction {
    }
  }
}
