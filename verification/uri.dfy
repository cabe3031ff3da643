/**
  URI references (RFC 3986). `parseURIReference` recognises them by cutting pieces off a remainder;
  here it is proved against the recomposition of section 5.3. Whether a text is an IPv6 address is
  left to the library, as a predicate `ipv6`.
 */
module URIs {
  import opened Documents
  import opened Text
  import opened MemberNames

  // Characters and components.

  predicate IsHex(c: char) {
    Digit(c) || 'a' <= c <= 'f' || 'A' <= c <= 'F'
  }

  /** The unreserved characters and sub-delimiters that are neither letters nor digits (sections 2.2 and 2.3). */
  predicate IsMark(c: char) {
    || c == '-' || c == '.' || c == '_' || c == '~'
    || c == '!' || c == '$' || c == '&' || c == '\'' || c == '(' || c == ')'
    || c == '*' || c == '+' || c == ',' || c == ';' || c == '='
  }

  /** The delimiters of the generic grammar (section 2.2). */
  predicate IsDelimiter(c: char) {
    c == ':' || c == '/' || c == '?' || c == '#' || c == '[' || c == ']' || c == '@'
  }

  predicate Allowed(c: char, extra: string) {
    AsciiLetter(c) || Digit(c) || IsMark(c) || c in extra
  }

  /** Any number of allowed characters and percent-encoded octets. */
  predicate IsComponent(s: string, extra: string) {
    s == ""
    || (if s[0] == '%' then |s| >= 3 && IsHex(s[1]) && IsHex(s[2]) && IsComponent(s[3..], extra)
        else Allowed(s[0], extra) && IsComponent(s[1..], extra))
  }

  predicate IsRaw(s: string, extra: string) {
    forall i | 0 <= i < |s| :: Allowed(s[i], extra)
  }

  lemma {:induction false} ComponentPrefix(prefix: string, rest: string, extra: string)
    requires '%' !in prefix && (rest == "" || rest[0] == '%')
    ensures IsComponent(prefix + rest, extra) <==> IsRaw(prefix, extra) && IsComponent(rest, extra)
  {
    if prefix == "" {
      assert prefix + rest == rest;
    } else {
      assert (prefix + rest)[1..] == prefix[1..] + rest && (prefix + rest)[0] == prefix[0];
      ComponentPrefix(prefix[1..], rest, extra);
      assert IsRaw(prefix, extra) <==> Allowed(prefix[0], extra) && IsRaw(prefix[1..], extra) by {
        assert forall i | 0 < i < |prefix| :: prefix[i] == prefix[1..][i - 1];
      }
    }
  }

  /** `validURIComponent`: skips from one percent sign to the next. */
  method ValidURIComponent(text: string, extra: string) returns (valid: bool)
    ensures valid <==> IsComponent(text, extra)
  {
    var value := text;
    while true
      invariant IsComponent(value, extra) <==> IsComponent(text, extra)
      decreases |value|
    {
      var percent := IndexOf(value, '%');
      if percent == -1 {
        ComponentPrefix(value, "", extra);
        assert value + "" == value;
        return IsRaw(value, extra);
      }
      var prefix, remainder := value[..percent], value[percent + 1..];
      ComponentPrefix(prefix, value[percent..], extra);
      assert prefix + value[percent..] == value;
      if !IsRaw(prefix, extra) {
        return false;
      }
      if |remainder| < 2 {
        return false;
      }
      if !IsHex(remainder[0]) || !IsHex(remainder[1]) {
        return false;
      }
      assert value[percent..][3..] == remainder[2..];
      value := remainder[2..];
    }
  }

  /** A component contains nothing but allowed characters and percent signs. */
  lemma {:induction false} ComponentCharacters(s: string, extra: string)
    requires IsComponent(s, extra)
    ensures forall c :: c in s ==> c == '%' || Allowed(c, extra)
  {
    if s != "" {
      if s[0] == '%' {
        ComponentCharacters(s[3..], extra);
        assert s == [s[0], s[1], s[2]] + s[3..];
      } else {
        ComponentCharacters(s[1..], extra);
        assert s == [s[0]] + s[1..];
      }
    }
  }

  /** A delimiter does not occur in a component that does not admit it. */
  lemma ComponentExcludes(s: string, extra: string, c: char)
    requires IsComponent(s, extra) && IsDelimiter(c) && c !in extra
    ensures c !in s
  {
    ComponentCharacters(s, extra);
    assert !Allowed(c, extra);
  }

  /** `scheme = ALPHA *( ALPHA / DIGIT / "+" / "-" / "." )` (section 3.1). */
  predicate IsScheme(s: string) {
    s != "" && AsciiLetter(s[0]) && forall i | 0 < i < |s| :: AsciiLetter(s[i]) || Digit(s[i]) || s[i] in "+.-"
  }

  method ValidURIScheme(scheme: string) returns (valid: bool)
    ensures valid <==> IsScheme(scheme)
  {
    if scheme == "" {
      return false;
    }
    if !AsciiLetter(scheme[0]) {
      return false;
    }
    for index := 1 to |scheme|
      invariant forall i :: 0 < i < index ==> AsciiLetter(scheme[i]) || Digit(scheme[i]) || scheme[i] in "+.-"
    {
      var character := scheme[index];
      if !AsciiLetter(character) && !Digit(character) && character !in "+.-" {
        return false;
      }
    }
    return true;
  }

  // Cutting and joining.

  datatype Cut = Cut(before: string, after: Option<string>)

  /** `strings.Cut` at a single byte. */
  function CutAt(s: string, c: char): Cut {
    var index := IndexOf(s, c);
    if index == -1 then Cut(s, None) else Cut(s[..index], Some(s[index + 1..]))
  }

  function Tail(c: char, part: Option<string>): string {
    if part.Some? then [c] + part.value else ""
  }

  lemma CutsJoin(s: string, c: char)
    ensures CutAt(s, c).before + Tail(c, CutAt(s, c).after) == s && c !in CutAt(s, c).before
  {
  }

  lemma JoinsCut(before: string, c: char, after: Option<string>)
    requires c !in before
    ensures CutAt(before + Tail(c, after), c) == Cut(before, after)
  {
    if after.Some? {
      FirstIndex(before, c, after.value);
      var s := before + [c] + after.value;
      assert before + Tail(c, after) == s;
      assert s[..|before|] == before && s[|before| + 1..] == after.value;
    } else {
      assert before + "" == before;
    }
  }

  // References.

  datatype Parts = Parts(
    scheme: Option<string>, authority: Option<string>, path: string, query: Option<string>, fragment: Option<string>)

  function SchemeText(scheme: Option<string>): string {
    if scheme.Some? then scheme.value + ":" else ""
  }

  function AuthorityText(authority: Option<string>): string {
    if authority.Some? then "//" + authority.value else ""
  }

  function HierarchyText(parts: Parts): string {
    SchemeText(parts.scheme) + (AuthorityText(parts.authority) + parts.path)
  }

  /** Component recomposition (section 5.3). */
  function Recompose(parts: Parts): string {
    HierarchyText(parts) + Tail('?', parts.query) + Tail('#', parts.fragment)
  }

  /** A colon before the first slash would be taken for the end of a scheme. */
  predicate NoColonFirst(s: string) {
    var colon := IndexOf(s, ':');
    colon == -1 || '/' in s[..colon]
  }

  predicate DoubleSlash(s: string) {
    |s| >= 2 && s[0] == '/' && s[1] == '/'
  }

  /** The grammar of sections 3 and 4.1, with the authority left open. */
  ghost predicate ValidParts(parts: Parts, authority: string -> bool) {
    && (parts.scheme.Some? ==> IsScheme(parts.scheme.value))
    && (parts.authority.Some? ==>
          authority(parts.authority.value) && (parts.path == "" || parts.path[0] == '/'))
    && (parts.authority.None? ==> !DoubleSlash(parts.path))
    && (parts.scheme.None? && parts.authority.None? ==> NoColonFirst(parts.path))
    && IsComponent(parts.path, "/:@")
    && (parts.query.Some? ==> IsComponent(parts.query.value, "/?:@"))
    && (parts.fragment.Some? ==> IsComponent(parts.fragment.value, "/?:@"))
  }

  datatype SchemeCut = SchemeCut(scheme: Option<string>, rest: string)

  function CutScheme(s: string): SchemeCut {
    if NoColonFirst(s) then SchemeCut(None, s)
    else SchemeCut(Some(s[..IndexOf(s, ':')]), s[IndexOf(s, ':') + 1..])
  }

  datatype AuthorityCut = AuthorityCut(authority: Option<string>, path: string)

  function CutAuthority(s: string): AuthorityCut {
    if !DoubleSlash(s) then AuthorityCut(None, s)
    else
      var index := IndexOf(s[2..], '/');
      if index == -1 then AuthorityCut(Some(s[2..]), "")
      else AuthorityCut(Some(s[2..][..index]), s[2..][index..])
  }

  /** Where the cuts of `parseURIReference` fall, whether or not the pieces are valid. */
  function Split(value: string): Parts {
    var fragment := CutAt(value, '#');
    var query := CutAt(fragment.before, '?');
    var scheme := CutScheme(query.before);
    var authority := CutAuthority(scheme.rest);
    Parts(scheme.scheme, authority.authority, authority.path, query.after, fragment.after)
  }

  lemma SchemeCutsJoin(s: string)
    ensures SchemeText(CutScheme(s).scheme) + CutScheme(s).rest == s
    ensures CutScheme(s).scheme.None? ==> NoColonFirst(CutScheme(s).rest)
  {
    hide IndexOf;
    assert "" + s == s;
  }

  lemma SchemeJoinsCut(scheme: Option<string>, rest: string)
    requires scheme.Some? ==> ':' !in scheme.value && '/' !in scheme.value
    requires scheme.None? ==> NoColonFirst(rest)
    ensures CutScheme(SchemeText(scheme) + rest) == SchemeCut(scheme, rest)
  {
    hide IndexOf;
    if scheme.Some? {
      FirstIndex(scheme.value, ':', rest);
      var s := scheme.value + [':'] + rest;
      assert SchemeText(scheme) + rest == s;
      assert s[..|scheme.value|] == scheme.value && s[|scheme.value| + 1..] == rest;
    } else {
      assert "" + rest == rest;
    }
  }

  lemma TakeThenDrop(before: string, s: string, i: nat)
    requires i <= |s|
    ensures before + s[..i] + s[i..] == before + s
    ensures i == |s| ==> s[..i] == s && s[i..] == ""
  {
  }

  lemma AuthorityCutsJoin(s: string)
    ensures AuthorityText(CutAuthority(s).authority) + CutAuthority(s).path == s
    ensures var cut := CutAuthority(s);
      && (cut.authority.Some? ==> '/' !in cut.authority.value && (cut.path == "" || cut.path[0] == '/'))
      && (cut.authority.None? ==> !DoubleSlash(cut.path))
  {
    hide IndexOf;
    if DoubleSlash(s) {
      assert s == "//" + s[2..];
      var index := IndexOf(s[2..], '/');
      TakeThenDrop("//", s[2..], if index == -1 then |s[2..]| else index);
    } else {
      assert "" + s == s;
    }
  }

  lemma AuthorityJoinsCut(authority: Option<string>, path: string)
    requires authority.Some? ==> '/' !in authority.value && (path == "" || path[0] == '/')
    requires authority.None? ==> !DoubleSlash(path)
    ensures CutAuthority(AuthorityText(authority) + path) == AuthorityCut(authority, path)
  {
    hide CutAuthority, DoubleSlash;
    if authority.Some? {
      SlashesJoinCut(authority.value, path);
      assert AuthorityText(authority) + path == "//" + (authority.value + path);
    } else {
      NoAuthorityCut(path);
      assert "" + path == path;
    }
  }

  lemma NoAuthorityCut(path: string)
    requires !DoubleSlash(path)
    ensures CutAuthority(path) == AuthorityCut(None, path)
  {
  }

  lemma SlashesJoinCut(authority: string, path: string)
    requires '/' !in authority && (path == "" || path[0] == '/')
    ensures CutAuthority("//" + (authority + path)) == AuthorityCut(Some(authority), path)
  {
    hide IndexOf;
    PathStarts(authority, path);
    var s := "//" + (authority + path);
    assert s[2..] == authority + path && DoubleSlash(s);
  }

  lemma PathStarts(authority: string, path: string)
    requires '/' !in authority && (path == "" || path[0] == '/')
    ensures var index := IndexOf(authority + path, '/');
      if path == "" then index == -1 && authority + path == authority
      else index == |authority| && (authority + path)[..index] == authority && (authority + path)[index..] == path
  {
    hide IndexOf;
    if path == "" {
      assert authority + path == authority;
    } else {
      FirstIndex(authority, '/', path[1..]);
      assert authority + ['/'] + path[1..] == authority + path;
    }
  }

  /** Cutting loses nothing. */
  lemma SplitRecomposes(value: string)
    ensures Recompose(Split(value)) == value
  {
    hide CutAt, CutScheme, CutAuthority, Tail, SchemeText, AuthorityText;
    var fragment := CutAt(value, '#');
    var query := CutAt(fragment.before, '?');
    var scheme := CutScheme(query.before);
    CutsJoin(value, '#');
    CutsJoin(fragment.before, '?');
    SchemeCutsJoin(query.before);
    AuthorityCutsJoin(scheme.rest);
  }

  /** What the pieces of a reference cannot contain, given that its authority contains no delimiter. */
  ghost predicate Delimited(parts: Parts) {
    && (parts.scheme.Some? ==> forall c :: c in ":/?#" ==> c !in parts.scheme.value)
    && (parts.authority.Some? ==> forall c :: c in "/?#" ==> c !in parts.authority.value)
    && '?' !in parts.path && '#' !in parts.path
    && (parts.query.Some? ==> '#' !in parts.query.value)
  }

  lemma ValidIsDelimited(parts: Parts, authority: string -> bool)
    requires ValidParts(parts, authority)
    requires forall a, c :: authority(a) && c in "/?#" ==> c !in a
    ensures Delimited(parts)
  {
    hide IsComponent, IsDelimiter;
    assert IsDelimiter('?') && IsDelimiter('#') by {
      Delimiters();
    }
    ComponentExcludes(parts.path, "/:@", '?');
    ComponentExcludes(parts.path, "/:@", '#');
    if parts.query.Some? {
      ComponentExcludes(parts.query.value, "/?:@", '#');
    }
    if parts.scheme.Some? {
      SchemeCharacters(parts.scheme.value);
    }
  }

  lemma Delimiters()
    ensures forall c :: c in ":/?#[]@" ==> IsDelimiter(c)
  {
  }

  lemma SchemeCharacters(s: string)
    requires IsScheme(s)
    ensures forall c :: c in ":/?#[]@%" ==> c !in s
  {
    assert forall c :: c in s ==> AsciiLetter(c) || Digit(c) || c == '+' || c == '.' || c == '-';
  }

  /** Recomposing valid pieces and cutting them again gives the same pieces. */
  lemma RecomposedSplits(parts: Parts, authority: string -> bool)
    requires ValidParts(parts, authority)
    requires forall a, c :: authority(a) && c in "/?#" ==> c !in a
    ensures Split(Recompose(parts)) == parts
  {
    ValidIsDelimited(parts, authority);
    HierarchyIsDelimited(parts);
    hide CutAt, CutScheme, CutAuthority, IsComponent, IsScheme;
    var hierarchy := HierarchyText(parts);
    var front := hierarchy + Tail('?', parts.query);
    JoinsCut(front, '#', parts.fragment);
    JoinsCut(hierarchy, '?', parts.query);
    SchemeJoinsCut(parts.scheme, AuthorityText(parts.authority) + parts.path);
    AuthorityJoinsCut(parts.authority, parts.path);
  }

  lemma HierarchyIsDelimited(parts: Parts)
    requires Delimited(parts)
    requires parts.scheme.None? && parts.authority.None? ==> NoColonFirst(parts.path)
    ensures '?' !in HierarchyText(parts) && '#' !in HierarchyText(parts)
    ensures '#' !in HierarchyText(parts) + Tail('?', parts.query)
    ensures parts.scheme.None? ==> NoColonFirst(AuthorityText(parts.authority) + parts.path)
  {
    var rest := AuthorityText(parts.authority) + parts.path;
    if parts.authority.None? {
      assert rest == parts.path;
    } else {
      assert rest[0] == '/' && rest[1] == '/';
      var colon := IndexOf(rest, ':');
      if colon != -1 {
        assert rest[..colon][0] == '/';
      }
    }
  }

  /** Some valid pieces recompose to this value. */
  ghost predicate IsReference(value: string, authority: string -> bool) {
    exists parts :: ValidParts(parts, authority) && Recompose(parts) == value
  }

  /** A value is a reference exactly when the pieces found by cutting are valid; they are the only ones. */
  lemma ReferencesSplitOneWay(value: string, authority: string -> bool)
    requires forall a, c :: authority(a) && c in "/?#" ==> c !in a
    ensures IsReference(value, authority) <==> ValidParts(Split(value), authority)
    ensures forall parts :: ValidParts(parts, authority) && Recompose(parts) == value ==> parts == Split(value)
  {
    hide ValidParts, Split, Recompose;
    SplitRecomposes(value);
    forall parts | ValidParts(parts, authority) && Recompose(parts) == value ensures parts == Split(value) {
      RecomposedSplits(parts, authority);
    }
  }

  // Authorities.

  datatype Host = Literal(text: string) | RegName(text: string)

  datatype AuthorityParts = AuthorityParts(userinfo: Option<string>, host: Host, port: Option<string>)

  function HostText(host: Host): string {
    match host
    case Literal(text) => "[" + text + "]"
    case RegName(text) => text
  }

  function UserinfoText(userinfo: Option<string>): string {
    if userinfo.Some? then userinfo.value + "@" else ""
  }

  function RecomposeAuthority(parts: AuthorityParts): string {
    UserinfoText(parts.userinfo) + (HostText(parts.host) + Tail(':', parts.port))
  }

  predicate AllDigits(s: string) {
    forall i | 0 <= i < |s| :: Digit(s[i])
  }

  predicate AllHex(s: string) {
    forall i | 0 <= i < |s| :: IsHex(s[i])
  }

  /** `"v" 1*HEXDIG "." 1*( unreserved / sub-delims / ":" )` (section 3.2.2), but percent-encoding is let through. */
  predicate IsFutureLiteral(value: string) {
    value != "" && (value[0] == 'v' || value[0] == 'V')
    && var dot := IndexOf(value[1..], '.');
       && dot > 0 && AllHex(value[1..][..dot])
       && value[1..][dot + 1..] != "" && IsComponent(value[1..][dot + 1..], ":")
  }

  predicate IsLiteral(value: string, ipv6: string -> bool) {
    ipv6(value) || IsFutureLiteral(value)
  }

  /** A host literal ends at its bracket and contains no delimiter of the surrounding grammar. */
  predicate Enclosed(text: string) {
    forall i | 0 <= i < |text| :: text[i] != '@' && text[i] != '/' && text[i] != '?' && text[i] != '#' && text[i] != ']'
  }

  /** The grammar of section 3.2 with these host literals; an IPv4 address is also a registered name. */
  ghost predicate ValidAuthorityParts(parts: AuthorityParts, literal: string -> bool) {
    && (parts.userinfo.Some? ==> IsComponent(parts.userinfo.value, ":"))
    && (match parts.host
        case Literal(text) => literal(text) && Enclosed(text)
        case RegName(text) => IsComponent(text, ""))
    && (parts.port.Some? ==> AllDigits(parts.port.value))
  }

  ghost predicate IsAuthority(authority: string, literal: string -> bool) {
    exists parts :: ValidAuthorityParts(parts, literal) && RecomposeAuthority(parts) == authority
  }

  /** Where the cuts of `validURIAuthority` fall; None when a bracket is out of place. */
  function SplitHost(hostPort: string): Option<(Host, Option<string>)> {
    if hostPort != "" && hostPort[0] == '[' then
      var closing := IndexOf(hostPort, ']');
      if closing == -1 then None
      else
        var rest := hostPort[closing + 1..];
        if rest == "" then Some((Literal(hostPort[1..closing]), None))
        else if rest[0] == ':' then Some((Literal(hostPort[1..closing]), Some(rest[1..])))
        else None
    else if '[' in hostPort || ']' in hostPort then None
    else
      var colon := LastIndexOf(hostPort, ':');
      if colon == -1 then Some((RegName(hostPort), None))
      else Some((RegName(hostPort[..colon]), Some(hostPort[colon + 1..])))
  }

  function SplitUserinfo(authority: string): (Option<string>, string) {
    var at := LastIndexOf(authority, '@');
    if at == -1 then (None, authority) else (Some(authority[..at]), authority[at + 1..])
  }

  function SplitAuthority(authority: string): Option<AuthorityParts> {
    var (userinfo, hostPort) := SplitUserinfo(authority);
    var host :- SplitHost(hostPort);
    Some(AuthorityParts(userinfo, host.0, host.1))
  }

  lemma HostRecomposes(hostPort: string)
    ensures SplitHost(hostPort).Some? ==>
      HostText(SplitHost(hostPort).value.0) + Tail(':', SplitHost(hostPort).value.1) == hostPort
      && (SplitHost(hostPort).value.0.Literal? ==> ']' !in SplitHost(hostPort).value.0.text)
  {
    hide IndexOf, LastIndexOf, HostText, Tail;
    if hostPort != "" && hostPort[0] == '[' {
      LiteralRecomposes(hostPort);
    } else {
      RegNameRecomposes(hostPort);
    }
  }

  lemma RegNameRecomposes(hostPort: string)
    ensures var colon := LastIndexOf(hostPort, ':');
      if colon == -1 then HostText(RegName(hostPort)) + Tail(':', None) == hostPort
      else HostText(RegName(hostPort[..colon])) + Tail(':', Some(hostPort[colon + 1..])) == hostPort
  {
    hide LastIndexOf;
    var colon := LastIndexOf(hostPort, ':');
    if colon == -1 {
      assert hostPort + "" == hostPort;
    } else {
      assert hostPort[..colon] + ([':'] + hostPort[colon + 1..]) == hostPort;
    }
  }

  lemma LiteralRecomposes(hostPort: string)
    requires hostPort != "" && hostPort[0] == '['
    ensures var closing := IndexOf(hostPort, ']');
      closing != -1 ==>
        var text, rest := hostPort[1..closing], hostPort[closing + 1..];
        && ']' !in text
        && (rest == "" ==> HostText(Literal(text)) + Tail(':', None) == hostPort)
        && (rest != "" && rest[0] == ':' ==> HostText(Literal(text)) + Tail(':', Some(rest[1..])) == hostPort)
  {
    hide IndexOf;
    var closing := IndexOf(hostPort, ']');
    if closing != -1 {
      var text, rest := hostPort[1..closing], hostPort[closing + 1..];
      assert "[" + text + "]" + rest == hostPort;
      assert forall i | 0 <= i < |text| :: text[i] == hostPort[..closing][i + 1];
      assert rest != "" ==> rest == [rest[0]] + rest[1..];
    }
  }

  lemma RecomposedHostSplits(host: Host, port: Option<string>)
    requires port.Some? ==> AllDigits(port.value)
    requires host.Literal? ==> ']' !in host.text
    requires host.RegName? ==> IsComponent(host.text, "")
    ensures SplitHost(HostText(host) + Tail(':', port)) == Some((host, port))
  {
    hide IndexOf, LastIndexOf, IsComponent;
    match host {
      case Literal(text) => LiteralSplits(text, port);
      case RegName(text) =>
        RegNamesHaveNoDelimiter(text);
        RegNameSplits(text, port);
    }
  }

  lemma LiteralSplits(text: string, port: Option<string>)
    requires ']' !in text
    ensures SplitHost("[" + text + "]" + Tail(':', port)) == Some((Literal(text), port))
  {
    hide IndexOf, LastIndexOf;
    var s := "[" + text + [']'] + Tail(':', port);
    FirstIndex("[" + text, ']', Tail(':', port));
    assert s[1..|text| + 1] == text && s[|text| + 2..] == Tail(':', port);
    assert port.Some? ==> Tail(':', port)[1..] == port.value;
  }

  lemma RegNameSplits(text: string, port: Option<string>)
    requires '[' !in text && ']' !in text && ':' !in text
    requires port.Some? ==> AllDigits(port.value)
    ensures SplitHost(text + Tail(':', port)) == Some((RegName(text), port))
  {
    hide IndexOf, LastIndexOf;
    var s := text + Tail(':', port);
    if port.Some? {
      DigitsAreNotDelimiters(port.value);
      LastIndex(text, ':', port.value);
      assert text + [':'] + port.value == s;
      assert s[..|text|] == text && s[|text| + 1..] == port.value;
    } else {
      assert s == text;
    }
  }

  lemma RegNamesHaveNoDelimiter(text: string)
    requires IsComponent(text, "")
    ensures '[' !in text && ']' !in text && ':' !in text && '@' !in text
    ensures '/' !in text && '?' !in text && '#' !in text
  {
    hide IsComponent;
    forall c | IsDelimiter(c) ensures c !in text {
      ComponentExcludes(text, "", c);
    }
  }

  lemma DigitsAreNotDelimiters(digits: string)
    requires AllDigits(digits)
    ensures forall c :: c in digits ==> Digit(c)
    ensures forall c :: c in "[]:@/?#" ==> c !in digits
  {
    assert forall c :: c in "[]:@/?#" ==> !Digit(c);
  }

  /** The characters of host and port never include `@`, as long as host literals do not. */
  lemma HostHasNoAt(host: Host, port: Option<string>)
    requires port.Some? ==> AllDigits(port.value)
    requires host.Literal? ==> '@' !in host.text
    requires host.RegName? ==> IsComponent(host.text, "")
    ensures '@' !in HostText(host) + Tail(':', port)
  {
    if port.Some? {
      DigitsAreNotDelimiters(port.value);
    }
    if host.RegName? {
      RegNamesHaveNoDelimiter(host.text);
    }
  }

  lemma UserinfoSplits(userinfo: Option<string>, hostPort: string)
    requires '@' !in hostPort
    ensures SplitUserinfo(UserinfoText(userinfo) + hostPort) == (userinfo, hostPort)
  {
    if userinfo.Some? {
      LastIndex(userinfo.value, '@', hostPort);
      var s := userinfo.value + ['@'] + hostPort;
      assert UserinfoText(userinfo) + hostPort == s;
      assert s[..|userinfo.value|] == userinfo.value && s[|userinfo.value| + 1..] == hostPort;
    } else {
      assert "" + hostPort == hostPort;
    }
  }

  lemma AuthoritiesSplitOneWay(authority: string, literal: string -> bool)
    ensures IsAuthority(authority, literal) <==> ValidSplit(authority, literal)
    ensures forall parts :: ValidAuthorityParts(parts, literal) && RecomposeAuthority(parts) == authority ==>
      SplitAuthority(authority) == Some(parts)
  {
    var (userinfo, hostPort) := SplitUserinfo(authority);
    assert UserinfoText(userinfo) + hostPort == authority;
    HostRecomposes(hostPort);
    forall parts | ValidAuthorityParts(parts, literal) && RecomposeAuthority(parts) == authority
      ensures SplitAuthority(authority) == Some(parts)
    {
      RecomposedAuthoritySplits(parts, literal);
    }
  }

  lemma RecomposedAuthoritySplits(parts: AuthorityParts, literal: string -> bool)
    requires ValidAuthorityParts(parts, literal)
    ensures SplitAuthority(RecomposeAuthority(parts)) == Some(parts)
  {
    hide SplitHost, SplitUserinfo, IsComponent, AllDigits, HostText, UserinfoText, Tail;
    HostHasNoAt(parts.host, parts.port);
    RecomposedHostSplits(parts.host, parts.port);
    UserinfoSplits(parts.userinfo, HostText(parts.host) + Tail(':', parts.port));
  }

  /** None of the characters at which path, query and fragment are cut off. */
  predicate NoDelimiter(s: string) {
    '/' !in s && '?' !in s && '#' !in s
  }

  lemma AuthoritiesAreDelimited(literal: string -> bool, authority: string)
    requires IsAuthority(authority, literal)
    ensures NoDelimiter(authority)
  {
    hide NoDelimiter, IsComponent, AllDigits, HostText, UserinfoText, Tail;
    var parts :| ValidAuthorityParts(parts, literal) && RecomposeAuthority(parts) == authority;
    UserinfoIsDelimited(parts.userinfo);
    HostIsDelimited(parts.host);
    PortIsDelimited(parts.port);
    NoDelimiterJoins(HostText(parts.host), Tail(':', parts.port));
    NoDelimiterJoins(UserinfoText(parts.userinfo), HostText(parts.host) + Tail(':', parts.port));
  }

  lemma NoDelimiterJoins(a: string, b: string)
    requires NoDelimiter(a) && NoDelimiter(b)
    ensures NoDelimiter(a + b)
  {
  }

  lemma UserinfoIsDelimited(userinfo: Option<string>)
    requires userinfo.Some? ==> IsComponent(userinfo.value, ":")
    ensures NoDelimiter(UserinfoText(userinfo))
  {
    hide IsComponent;
    if userinfo.Some? {
      ComponentExcludes(userinfo.value, ":", '/');
      ComponentExcludes(userinfo.value, ":", '?');
      ComponentExcludes(userinfo.value, ":", '#');
    }
  }

  lemma HostIsDelimited(host: Host)
    requires host.Literal? ==> Enclosed(host.text)
    requires host.RegName? ==> IsComponent(host.text, "")
    ensures NoDelimiter(HostText(host))
  {
    hide IsComponent;
    if host.RegName? {
      RegNamesHaveNoDelimiter(host.text);
    }
  }

  lemma PortIsDelimited(port: Option<string>)
    requires port.Some? ==> AllDigits(port.value)
    ensures NoDelimiter(Tail(':', port))
  {
    if port.Some? {
      DigitsAreNotDelimiters(port.value);
    }
  }

  // The recogniser.

  method ValidIPLiteral(value: string, ipv6: string -> bool) returns (valid: bool)
    ensures valid <==> IsLiteral(value, ipv6)
  {
    if ipv6(value) {
      return true;
    }
    if value == "" {
      return false;
    }
    if value[0] != 'v' && value[0] != 'V' {
      return false;
    }
    var cut := CutAt(value[1..], '.');
    if cut.after.None? || cut.before == "" || cut.after.value == "" {
      return false;
    }
    if !AllHex(cut.before) {
      return false;
    }
    valid := ValidURIComponent(cut.after.value, ":");
  }

  /** `validURIPort`, on the text after the host. */
  predicate IsPortText(value: string) {
    value == "" || (value[0] == ':' && AllDigits(value[1..]))
  }

  function LiteralOf(ipv6: string -> bool): string -> bool {
    (text: string) => IsLiteral(text, ipv6)
  }

  ghost predicate ValidSplit(authority: string, literal: string -> bool) {
    SplitAuthority(authority).Some? && ValidAuthorityParts(SplitAuthority(authority).value, literal)
  }

  method ValidURIAuthority(authority: string, ipv6: string -> bool) returns (valid: bool)
    requires NoDelimiter(authority)
    ensures valid <==> ValidSplit(authority, LiteralOf(ipv6))
  {
    hide IsComponent, AllDigits, IsLiteral, LastIndexOf, SplitHost;
    var hostPort := authority;
    var at := LastIndexOf(authority, '@');
    if at != -1 {
      var sound := ValidURIComponent(authority[..at], ":");
      if !sound {
        return false;
      }
      hostPort := authority[at + 1..];
    }
    assert '@' !in hostPort && NoDelimiter(hostPort);
    valid := ValidHostPort(hostPort, ipv6);
  }

  ghost predicate ValidSplitHost(hostPort: string, literal: string -> bool) {
    && SplitHost(hostPort).Some?
    && ValidAuthorityParts(
         AuthorityParts(None, SplitHost(hostPort).value.0, SplitHost(hostPort).value.1), literal)
  }

  method ValidHostPort(hostPort: string, ipv6: string -> bool) returns (valid: bool)
    requires '@' !in hostPort && NoDelimiter(hostPort)
    ensures valid <==> ValidSplitHost(hostPort, LiteralOf(ipv6))
  {
    hide IsComponent, AllDigits, IsLiteral, IndexOf, LastIndexOf;
    HostRecomposes(hostPort);
    if hostPort != "" && hostPort[0] == '[' {
      var closing := IndexOf(hostPort, ']');
      if closing == -1 {
        return false;
      }
      assert Enclosed(hostPort[1..closing]) by {
        assert forall i | 0 <= i < closing - 1 :: hostPort[1..closing][i] == hostPort[..closing][i + 1];
      }
      var sound := ValidIPLiteral(hostPort[1..closing], ipv6);
      if !sound {
        return false;
      }
      return IsPortText(hostPort[closing + 1..]);
    }
    if '[' in hostPort || ']' in hostPort {
      return false;
    }
    var colon := LastIndexOf(hostPort, ':');
    if colon != -1 {
      var sound := ValidURIComponent(hostPort[..colon], "");
      if !sound {
        return false;
      }
      assert hostPort[colon..][1..] == hostPort[colon + 1..];
      return IsPortText(hostPort[colon..]);
    }
    valid := ValidURIComponent(hostPort, "");
  }

  /** The authorities of the grammar with these host literals. */
  ghost function Authorities(literal: string -> bool): string -> bool {
    (authority: string) => IsAuthority(authority, literal)
  }

  lemma AuthoritiesAre(literal: string -> bool)
    ensures forall authority :: Authorities(literal)(authority) <==> IsAuthority(authority, literal)
  {
  }

  /** `parseURIReference`, as cuts and checks of the pieces. */
  method CheckPieces(value: string, ipv6: string -> bool) returns (absolute: bool, valid: bool)
    ensures valid <==> ValidParts(Split(value), Authorities(LiteralOf(ipv6)))
    ensures absolute <==> valid && Split(value).scheme.Some?
  {
    hide IsComponent, IsAuthority, IsScheme, CutAt, CutScheme, CutAuthority, NoColonFirst, DoubleSlash;
    CutsJoin(value, '#');
    var remainder, sound;
    remainder, sound := CheckTail(value, '#');
    if !sound {
      return false, false;
    }
    CutsJoin(remainder, '?');
    remainder, sound := CheckTail(remainder, '?');
    if !sound {
      return false, false;
    }
    absolute, valid := CheckHierarchy(remainder, Split(value), ipv6);
  }

  /** How `parseURIReference` cuts off a fragment or a query. */
  method CheckTail(text: string, c: char) returns (remainder: string, sound: bool)
    ensures remainder == CutAt(text, c).before
    ensures sound <==> (CutAt(text, c).after.Some? ==> IsComponent(CutAt(text, c).after.value, "/?:@"))
  {
    remainder, sound := text, true;
    var index := IndexOf(text, c);
    if index >= 0 {
      sound := ValidURIComponent(text[index + 1..], "/?:@");
      remainder := text[..index];
    }
  }

  /** The rest of `parseURIReference`, once query and fragment have been cut off and found valid. */
  method CheckHierarchy(hierarchy: string, ghost parts: Parts, ipv6: string -> bool)
    returns (absolute: bool, valid: bool)
    requires '?' !in hierarchy && '#' !in hierarchy
    requires CutScheme(hierarchy).scheme == parts.scheme
    requires CutAuthority(CutScheme(hierarchy).rest) == AuthorityCut(parts.authority, parts.path)
    requires parts.query.Some? ==> IsComponent(parts.query.value, "/?:@")
    requires parts.fragment.Some? ==> IsComponent(parts.fragment.value, "/?:@")
    ensures valid <==> ValidParts(parts, Authorities(LiteralOf(ipv6)))
    ensures absolute <==> valid && parts.scheme.Some?
  {
    hide IsComponent, IsAuthority, IsScheme, IndexOf, Authorities;
    AuthoritiesAre(LiteralOf(ipv6));
    var remainder := hierarchy;
    absolute := false;
    SchemeCutsJoin(hierarchy);
    AuthorityCutsJoin(CutScheme(hierarchy).rest);
    if !NoColonFirst(remainder) {
      var colon := IndexOf(remainder, ':');
      var sound := ValidURIScheme(remainder[..colon]);
      if !sound {
        return false, false;
      }
      absolute := true;
      remainder := remainder[colon + 1..];
    }
    assert remainder == CutScheme(hierarchy).rest;
    if DoubleSlash(remainder) {
      var sound;
      sound, remainder := CheckAuthority(remainder, ipv6);
      if !sound {
        return false, false;
      }
    }
    var sound := ValidURIComponent(remainder, "/:@");
    return sound && absolute, sound;
  }

  /** The part of `parseURIReference` for a remainder that starts with an authority. */
  method CheckAuthority(text: string, ipv6: string -> bool) returns (valid: bool, path: string)
    requires DoubleSlash(text) && '?' !in text && '#' !in text
    ensures CutAuthority(text).path == path
    ensures valid <==> IsAuthority(CutAuthority(text).authority.value, LiteralOf(ipv6))
  {
    hide IndexOf, ValidSplit, IsAuthority;
    AuthorityCutsJoin(text);
    var remainder := text[2..];
    var index := IndexOf(remainder, '/');
    var authority := remainder;
    if index != -1 {
      authority := remainder[..index];
      remainder := remainder[index..];
    } else {
      remainder := "";
    }
    AuthoritiesSplitOneWay(authority, LiteralOf(ipv6));
    assert NoDelimiter(authority);
    valid := ValidURIAuthority(authority, ipv6);
    path := remainder;
  }

  lemma AuthoritiesHaveNoDelimiter(literal: string -> bool)
    ensures forall a, c :: Authorities(literal)(a) && c in "/?#" ==> c !in a
  {
    hide IsAuthority;
    forall a | Authorities(literal)(a) ensures '/' !in a && '?' !in a && '#' !in a {
      AuthoritiesAreDelimited(literal, a);
    }
  }

  /**
    `parseURIReference`: a value is accepted exactly when it is the recomposition of valid pieces,
    and it is absolute exactly when they include a scheme.
   */
  method ParseURIReference(value: string, ipv6: string -> bool) returns (absolute: bool, valid: bool)
    ensures valid <==> IsReference(value, Authorities(LiteralOf(ipv6)))
    ensures forall parts :: ValidParts(parts, Authorities(LiteralOf(ipv6))) && Recompose(parts) == value ==>
      (absolute <==> parts.scheme.Some?)
    ensures absolute ==> valid
  {
    hide ValidParts, IsReference, Recompose, Split;
    AuthoritiesHaveNoDelimiter(LiteralOf(ipv6));
    ReferencesSplitOneWay(value, Authorities(LiteralOf(ipv6)));
    absolute, valid := CheckPieces(value, ipv6);
  }

  // Where the recogniser is more generous than the RFC.

  /** Host literals as section 3.2.2 has them: nothing in them is percent-encoded, and there is no zone. */
  function StrictLiteralOf(ipv6: string -> bool): string -> bool {
    (text: string) => '%' !in text && IsLiteral(text, ipv6)
  }

  /** The text after the first opening bracket, up to the next closing one. */
  function BracketText(value: string): string {
    var open := CutAt(value, '[');
    if open.after.None? then "" else CutAt(open.after.value, ']').before
  }

  /** A percent-encoded octet in an address of a future version is accepted, although the RFC does not allow it. */
  lemma EncodedFutureLiteralIsAccepted(ipv6: string -> bool)
    ensures IsReference("//[v1.%41]", Authorities(LiteralOf(ipv6)))
    ensures !IsReference("//[v1.%41]", Authorities(StrictLiteralOf(ipv6)))
  {
    hide IsLiteral, IsComponent, IsScheme, BracketText, IndexOf, IsReference, IsAuthority;
    var host := AuthorityParts(None, Literal("v1.%41"), None);
    var parts := Parts(None, Some("[v1.%41]"), "", None, None);
    EncodedFutureLiteral(ipv6);
    assert RecomposeAuthority(host) == "[v1.%41]";
    assert Recompose(parts) == "//[v1.%41]";
    AuthorityWitness(host, LiteralOf(ipv6));
    EmptyComponent("/:@");
    assert SoundPieces(parts);
    BracketIsTheLiteral(parts, host);
    ReferenceWitness(parts, Authorities(LiteralOf(ipv6)));
    assert "v1.%41"[3] == '%';
    StrictReferences("//[v1.%41]", ipv6);
  }

  lemma EncodedFutureLiteral(ipv6: string -> bool)
    ensures IsLiteral("v1.%41", ipv6) && Enclosed("v1.%41")
  {
    hide IndexOf;
    FirstIndex("1", '.', "%41");
    assert "v1.%41"[1..] == "1" + ['.'] + "%41";
    assert "v1.%41"[1..][2..] == "%41" && "%41"[3..] == "";
    assert "v1.%41"[1..][..1] == "1";
  }

  lemma EmptyComponent(extra: string)
    ensures IsComponent("", extra)
  {
  }

  lemma AuthorityWitness(parts: AuthorityParts, literal: string -> bool)
    requires ValidAuthorityParts(parts, literal)
    ensures IsAuthority(RecomposeAuthority(parts), literal)
  {
  }

  lemma ReferenceWitness(parts: Parts, authority: string -> bool)
    requires ValidParts(parts, authority)
    ensures IsReference(Recompose(parts), authority)
  {
  }

  /** Apart from that the recogniser is exact: it agrees with the RFC unless a bracketed host contains `%`. */
  lemma StrictReferences(value: string, ipv6: string -> bool)
    ensures IsReference(value, Authorities(StrictLiteralOf(ipv6))) <==>
      IsReference(value, Authorities(LiteralOf(ipv6))) && '%' !in BracketText(value)
  {
    hide BracketText, IsAuthority, Recompose, ValidParts;
    if parts :| ValidParts(parts, Authorities(StrictLiteralOf(ipv6))) && Recompose(parts) == value {
      StrictIsGenerous(parts, ipv6);
    }
    if IsReference(value, Authorities(LiteralOf(ipv6))) && '%' !in BracketText(value) {
      var parts :| ValidParts(parts, Authorities(LiteralOf(ipv6))) && Recompose(parts) == value;
      UnencodedIsStrict(parts, ipv6);
    }
  }

  lemma StrictIsGenerous(parts: Parts, ipv6: string -> bool)
    requires ValidParts(parts, Authorities(StrictLiteralOf(ipv6)))
    ensures ValidParts(parts, Authorities(LiteralOf(ipv6))) && '%' !in BracketText(Recompose(parts))
  {
    hide IsComponent, IsScheme, IsLiteral, BracketText, RecomposeAuthority, Recompose;
    if parts.authority.Some? {
      var host :| ValidAuthorityParts(host, StrictLiteralOf(ipv6)) && RecomposeAuthority(host) == parts.authority.value;
      assert ValidAuthorityParts(host, LiteralOf(ipv6));
      BracketIsTheLiteral(parts, host);
    } else {
      NoBracket(parts);
    }
  }

  lemma UnencodedIsStrict(parts: Parts, ipv6: string -> bool)
    requires ValidParts(parts, Authorities(LiteralOf(ipv6))) && '%' !in BracketText(Recompose(parts))
    ensures ValidParts(parts, Authorities(StrictLiteralOf(ipv6)))
  {
    hide IsComponent, IsScheme, IsLiteral, BracketText, RecomposeAuthority, Recompose;
    if parts.authority.Some? {
      var host :| ValidAuthorityParts(host, LiteralOf(ipv6)) && RecomposeAuthority(host) == parts.authority.value;
      BracketIsTheLiteral(parts, host);
      assert ValidAuthorityParts(host, StrictLiteralOf(ipv6));
    }
  }

  /** The pieces other than a host literal contain no bracket. */
  ghost predicate SoundPieces(parts: Parts) {
    && (parts.scheme.Some? ==> IsScheme(parts.scheme.value))
    && IsComponent(parts.path, "/:@")
    && (parts.query.Some? ==> IsComponent(parts.query.value, "/?:@"))
    && (parts.fragment.Some? ==> IsComponent(parts.fragment.value, "/?:@"))
  }

  lemma PiecesHaveNoBracket(parts: Parts)
    requires SoundPieces(parts)
    ensures '[' !in SchemeText(parts.scheme) && '[' !in parts.path
    ensures '[' !in Tail('?', parts.query) && '[' !in Tail('#', parts.fragment)
  {
    hide IsComponent, IsScheme;
    ComponentExcludes(parts.path, "/:@", '[');
    if parts.query.Some? {
      ComponentExcludes(parts.query.value, "/?:@", '[');
    }
    if parts.fragment.Some? {
      ComponentExcludes(parts.fragment.value, "/?:@", '[');
    }
    if parts.scheme.Some? {
      SchemeCharacters(parts.scheme.value);
    }
  }

  lemma NoBracket(parts: Parts)
    requires SoundPieces(parts) && (parts.authority.Some? ==> '[' !in parts.authority.value)
    ensures BracketText(Recompose(parts)) == ""
  {
    hide SoundPieces, IndexOf, Tail;
    PiecesHaveNoBracket(parts);
  }

  /** In a reference with this authority, the text in brackets is the host literal, if there is one. */
  lemma BracketIsTheLiteral(parts: Parts, host: AuthorityParts)
    requires SoundPieces(parts) && parts.authority == Some(RecomposeAuthority(host))
    requires host.userinfo.Some? ==> IsComponent(host.userinfo.value, ":")
    requires host.host.RegName? ==> IsComponent(host.host.text, "")
    requires host.host.Literal? ==> Enclosed(host.host.text)
    requires host.port.Some? ==> AllDigits(host.port.value)
    ensures BracketText(Recompose(parts)) == if host.host.Literal? then host.host.text else ""
  {
    hide IsComponent, AllDigits, SoundPieces, IndexOf, BracketText;
    UserinfoHasNoBracket(host.userinfo);
    match host.host {
      case RegName(text) =>
        RegNamesHaveNoDelimiter(text);
        if host.port.Some? {
          DigitsAreNotDelimiters(host.port.value);
        }
        NoBracket(parts);
      case Literal(text) =>
        PiecesHaveNoBracket(parts);
        var before := SchemeText(parts.scheme) + "//" + UserinfoText(host.userinfo);
        var after := Tail(':', host.port) + parts.path + Tail('?', parts.query) + Tail('#', parts.fragment);
        BracketAt(before, text, after);
        LiteralInPlace(parts, host);
    }
  }

  lemma LiteralInPlace(parts: Parts, host: AuthorityParts)
    requires host.host.Literal? && parts.authority == Some(RecomposeAuthority(host))
    ensures Recompose(parts) ==
      SchemeText(parts.scheme) + "//" + UserinfoText(host.userinfo) + "[" + host.host.text + "]"
      + (Tail(':', host.port) + parts.path + Tail('?', parts.query) + Tail('#', parts.fragment))
  {
    hide Tail, SchemeText, UserinfoText;
  }

  lemma UserinfoHasNoBracket(userinfo: Option<string>)
    requires userinfo.Some? ==> IsComponent(userinfo.value, ":")
    ensures '[' !in UserinfoText(userinfo)
  {
    hide IsComponent;
    if userinfo.Some? {
      ComponentExcludes(userinfo.value, ":", '[');
    }
  }

  lemma BracketAt(before: string, text: string, after: string)
    requires '[' !in before && ']' !in text
    ensures BracketText(before + "[" + text + "]" + after) == text
  {
    hide IndexOf;
    FirstIndex(before, '[', text + "]" + after);
    var s := before + ['['] + (text + "]" + after);
    assert s == before + "[" + text + "]" + after;
    assert s[|before| + 1..] == text + "]" + after;
    FirstIndex(text, ']', after);
    assert text + [']'] + after == text + "]" + after;
    assert (text + "]" + after)[..|text|] == text;
  }

  // The grammar by lists of characters and pieces.

  lemma CharactersOnText(c: char, extra: string)
    ensures IsHex(c) <==> c in "0123456789" || c in "abcdef" || c in "ABCDEF"
    ensures Allowed(c, extra) <==>
      || 65 <= c as int <= 90 || 97 <= c as int <= 122 || 48 <= c as int <= 57
      || c in "-._~" || c in "!$&'()*+,;=" || c in extra
  {
    MarksOnText(c);
    CharactersByCode(c);
  }

  lemma MarksOnText(c: char)
    ensures IsMark(c) <==> c in "-._~" || c in "!$&'()*+,;="
  {
  }

  /** One allowed character, or a percent sign with two hexadecimal digits. */
  predicate IsUnit(unit: string, extra: string) {
    || (|unit| == 1 && unit[0] != '%' && Allowed(unit[0], extra))
    || (|unit| == 3 && unit[0] == '%' && IsHex(unit[1]) && IsHex(unit[2]))
  }

  function Concatenation(units: seq<string>): string {
    if units == [] then "" else units[0] + Concatenation(units[1..])
  }

  /** A component is a row of such units. */
  lemma {:induction false} ComponentsAreUnits(s: string, extra: string)
    ensures IsComponent(s, extra) <==> exists units ::
      (forall unit :: unit in units ==> IsUnit(unit, extra)) && Concatenation(units) == s
  {
    if IsComponent(s, extra) {
      var units := Units(s, extra);
    }
    forall units | (forall unit :: unit in units ==> IsUnit(unit, extra)) && Concatenation(units) == s
      ensures IsComponent(s, extra)
    {
      UnitsAreComponent(units, extra);
    }
  }

  lemma {:induction false} Units(s: string, extra: string) returns (units: seq<string>)
    requires IsComponent(s, extra)
    ensures (forall unit :: unit in units ==> IsUnit(unit, extra)) && Concatenation(units) == s
    decreases |s|
  {
    hide Allowed;
    units := [];
    if s != "" {
      var length := if s[0] == '%' then 3 else 1;
      var rest := Units(s[length..], extra);
      units := [s[..length]] + rest;
      assert units[1..] == rest && s == s[..length] + s[length..];
    }
  }

  lemma {:induction false} UnitsAreComponent(units: seq<string>, extra: string)
    requires forall unit :: unit in units ==> IsUnit(unit, extra)
    ensures IsComponent(Concatenation(units), extra)
  {
    hide Allowed;
    if units != [] {
      UnitsAreComponent(units[1..], extra);
      var s := Concatenation(units);
      assert units[0] in units && s == units[0] + Concatenation(units[1..]);
      assert s[|units[0]|..] == Concatenation(units[1..]);
    }
  }

  /** The marks that decide where a reference is cut. */
  lemma CutsOnText(s: string)
    ensures NoColonFirst(s) <==> forall i :: 0 <= i < |s| && s[i] == ':' ==> '/' in s[..i] || ':' in s[..i]
    ensures DoubleSlash(s) <==> exists rest :: s == "//" + rest
  {
    hide IndexOf;
    var colon := IndexOf(s, ':');
    if colon != -1 {
      assert s[colon] == ':' && ':' !in s[..colon];
      assert forall i :: colon < i < |s| ==> s[..i][colon] == ':';
      assert forall i :: 0 <= i < colon ==> s[i] == s[..colon][i];
    }
    if DoubleSlash(s) {
      assert s == "//" + s[2..];
    }
  }

  lemma RecomposedText(parts: Parts)
    ensures Recompose(parts) ==
      (if parts.scheme.Some? then parts.scheme.value + ":" else "")
      + (if parts.authority.Some? then "//" + parts.authority.value else "")
      + parts.path
      + (if parts.query.Some? then "?" + parts.query.value else "")
      + (if parts.fragment.Some? then "#" + parts.fragment.value else "")
  {
    var scheme, authority := SchemeText(parts.scheme), AuthorityText(parts.authority);
    assert scheme + (authority + parts.path) == scheme + authority + parts.path;
  }

  /** A reference is written piece by piece with its delimiters. */
  lemma ReferencesOnText(value: string, authority: string -> bool)
    ensures IsReference(value, authority) <==> exists parts: Parts ::
      && ValidParts(parts, authority)
      && value ==
           (if parts.scheme.Some? then parts.scheme.value + ":" else "")
           + (if parts.authority.Some? then "//" + parts.authority.value else "")
           + parts.path
           + (if parts.query.Some? then "?" + parts.query.value else "")
           + (if parts.fragment.Some? then "#" + parts.fragment.value else "")
  {
    hide ValidParts, Recompose;
    if IsReference(value, authority) {
      var parts :| ValidParts(parts, authority) && Recompose(parts) == value;
      RecomposedText(parts);
    }
    forall parts: Parts | ValidParts(parts, authority) ensures IsReference(Recompose(parts), authority) {
    }
    forall parts: Parts
      ensures Recompose(parts) ==
        (if parts.scheme.Some? then parts.scheme.value + ":" else "")
        + (if parts.authority.Some? then "//" + parts.authority.value else "")
        + parts.path
        + (if parts.query.Some? then "?" + parts.query.value else "")
        + (if parts.fragment.Some? then "#" + parts.fragment.value else "")
    {
      RecomposedText(parts);
    }
  }

  /** An authority is written as userinfo, host and port with their delimiters. */
  lemma AuthoritiesOnText(authority: string, literal: string -> bool)
    ensures IsAuthority(authority, literal) <==> exists userinfo: Option<string>, host: Host, port: Option<string> ::
      && ValidAuthorityParts(AuthorityParts(userinfo, host, port), literal)
      && authority ==
           (if userinfo.Some? then userinfo.value + "@" else "")
           + (match host case Literal(text) => "[" + text + "]" case RegName(text) => text)
           + (if port.Some? then ":" + port.value else "")
  {
    hide ValidAuthorityParts;
    forall userinfo: Option<string>, host: Host, port: Option<string>
      ensures RecomposeAuthority(AuthorityParts(userinfo, host, port)) ==
        (if userinfo.Some? then userinfo.value + "@" else "")
        + (match host case Literal(text) => "[" + text + "]" case RegName(text) => text)
        + (if port.Some? then ":" + port.value else "")
    {
    }
  }
}
