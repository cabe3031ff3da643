/**
  The string functions of the Go library that the modelled code relies on. A string is a sequence
  of bytes, one per character.
 */
module Text {

  /** `strings.IndexByte`: the first position of `c`, or -1. */
  function IndexOf(s: string, c: char): (index: int)
    ensures index == -1 <==> c !in s
    ensures index != -1 ==> 0 <= index < |s| && s[index] == c && c !in s[..index]
  {
    if s == "" then -1
    else if s[0] == c then 0
    else
      var rest := IndexOf(s[1..], c);
      if rest == -1 then -1
      else
        assert s[..rest + 1] == [s[0]] + s[1..][..rest];
        rest + 1
  }

  /** `strings.LastIndexByte`. */
  function LastIndexOf(s: string, c: char): (index: int)
    ensures index == -1 <==> c !in s
    ensures index != -1 ==> 0 <= index < |s| && s[index] == c && c !in s[index + 1..]
  {
    if s == "" then -1
    else
      var last := |s| - 1;
      if s[last] == c then last
      else
        var index := LastIndexOf(s[..last], c);
        assert index != -1 ==> s[index + 1..] == s[..last][index + 1..] + [s[last]];
        index
  }

  lemma FirstIndex(before: string, c: char, after: string)
    requires c !in before
    ensures IndexOf(before + [c] + after, c) == |before|
  {
    hide IndexOf;
    var s := before + [c] + after;
    var index := IndexOf(s, c);
    assert s[|before|] == c;
    assert forall i | 0 <= i < |before| :: s[i] == before[i];
    EarlierOccurs(s, |before|);
  }

  lemma EarlierOccurs(s: string, j: nat)
    requires j < |s|
    ensures forall i {:trigger s[..i]} :: j < i <= |s| ==> s[j] in s[..i]
  {
    forall i {:trigger s[..i]} | j < i <= |s| ensures s[j] in s[..i] {
      assert s[..i][j] == s[j];
    }
  }

  lemma {:induction false} LastIndex(before: string, c: char, after: string)
    requires c !in after
    ensures LastIndexOf(before + [c] + after, c) == |before|
  {
    var s := before + [c] + after;
    if after == "" {
      assert s == before + [c];
    } else {
      var front := after[..|after| - 1];
      assert s[..|s| - 1] == before + [c] + front;
      LastIndex(before, c, front);
    }
  }

  /** `strings.Join` with a one-byte separator. */
  function Join(parts: seq<string>, separator: char): string {
    if parts == [] then ""
    else if |parts| == 1 then parts[0]
    else parts[0] + [separator] + Join(parts[1..], separator)
  }

  /** `strings.Split` with a one-byte separator. */
  function Split(s: string, separator: char): (parts: seq<string>)
    ensures |parts| > 0
    ensures Join(parts, separator) == s
    ensures forall i :: 0 <= i < |parts| ==> separator !in parts[i]
    decreases |s|
  {
    var index := IndexOf(s, separator);
    if index == -1 then [s]
    else
      var rest := Split(s[index + 1..], separator);
      assert [s[..index]] + rest != [] && ([s[..index]] + rest)[1..] == rest;
      [s[..index]] + rest
  }

  lemma {:induction false} SplitOfJoin(parts: seq<string>, separator: char)
    requires |parts| > 0
    requires forall i :: 0 <= i < |parts| ==> separator !in parts[i]
    ensures Split(Join(parts, separator), separator) == parts
  {
    if |parts| == 1 {
      assert Join(parts, separator) == parts[0];
    } else {
      var rest := Join(parts[1..], separator);
      var s := Join(parts, separator);
      FirstIndex(parts[0], separator, rest);
      assert s == parts[0] + [separator] + rest;
      assert s[..|parts[0]|] == parts[0] && s[|parts[0]| + 1..] == rest;
      SplitOfJoin(parts[1..], separator);
    }
  }

  /** `strconv.Itoa` of a natural number. */
  function Decimal(number: nat): string {
    var digit := ['0' + (number % 10) as char];
    if number < 10 then digit else Decimal(number / 10) + digit
  }

  // Byte-wise lexicographic order, the order of `sort.Strings` and `strings.Compare`.

  predicate Before(a: string, b: string) {
    b != "" && (a == "" || a[0] < b[0] || (a[0] == b[0] && Before(a[1..], b[1..])))
  }

  lemma {:induction false} BeforeIsTotal(a: string, b: string)
    ensures a == b || Before(a, b) || Before(b, a)
    ensures !(Before(a, b) && Before(b, a))
    ensures !Before(a, a)
  {
    if a != "" {
      BeforeIsIrreflexive(a);
    }
    if a != "" && b != "" && a[0] == b[0] {
      BeforeIsTotal(a[1..], b[1..]);
      assert a[1..] == b[1..] ==> a == b;
    }
  }

  lemma {:induction false} BeforeIsIrreflexive(a: string)
    ensures !Before(a, a)
  {
    if a != "" {
      BeforeIsIrreflexive(a[1..]);
    }
  }

  lemma {:induction false} BeforeIsTransitive(a: string, b: string, c: string)
    requires Before(a, b) && Before(b, c)
    ensures Before(a, c)
  {
    if a != "" && a[0] == b[0] == c[0] {
      BeforeIsTransitive(a[1..], b[1..], c[1..]);
    }
  }

  /** At the first byte that differs the smaller one decides; without one, the shorter text comes first. */
  lemma {:induction false} BeforeIsLexicographic(a: string, b: string)
    ensures Before(a, b) <==>
      exists k :: 0 <= k <= |a| && k < |b| && a[..k] == b[..k] && (k == |a| || a[k] < b[k])
  {
    if a != "" && b != "" && a[0] == b[0] {
      BeforeIsLexicographic(a[1..], b[1..]);
      forall k | 0 <= k < |a| && k < |b|
        ensures a[..k + 1] == b[..k + 1] <==> a[1..][..k] == b[1..][..k]
      {
        assert a[..k + 1] == [a[0]] + a[1..][..k] && b[..k + 1] == [b[0]] + b[1..][..k];
        assert a[..k + 1][1..] == a[1..][..k] && b[..k + 1][1..] == b[1..][..k];
      }
      if Before(a, b) {
        var k :| 0 <= k <= |a| - 1 && k < |b| - 1 && a[1..][..k] == b[1..][..k] && (k == |a| - 1 || a[1..][k] < b[1..][k]);
        assert a[..k + 1] == b[..k + 1];
      }
      if k :| 0 <= k <= |a| && k < |b| && a[..k] == b[..k] && (k == |a| || a[k] < b[k]) {
        assert k > 0;
        assert a[1..][..k - 1] == b[1..][..k - 1];
      }
    } else if a != "" && b != "" {
      assert a[..0] == b[..0];
      assert forall k | 0 < k <= |a| && k < |b| :: a[..k][0] != b[..k][0];
    } else if b != "" {
      assert a[..0] == b[..0];
    }
  }

  ghost predicate StrictlySorted(names: seq<string>) {
    forall i, j :: 0 <= i < j < |names| ==> Before(names[i], names[j])
  }

  ghost function Elements(names: seq<string>): set<string> {
    set name | name in names
  }

  lemma InsertSorted(names: seq<string>, at: nat, name: string)
    requires StrictlySorted(names) && at <= |names|
    requires forall i :: 0 <= i < at ==> Before(names[i], name)
    requires forall i :: at <= i < |names| ==> Before(name, names[i])
    ensures StrictlySorted(names[..at] + [name] + names[at..])
    ensures Elements(names[..at] + [name] + names[at..]) == Elements(names) + {name}
  {
    var inserted := names[..at] + [name] + names[at..];
    assert forall i | 0 <= i < |inserted| ::
      inserted[i] == if i < at then names[i] else if i == at then name else names[i - 1];
    assert name == inserted[at];
    forall other | other in names ensures other in inserted {
      var i :| 0 <= i < |names| && names[i] == other;
      assert inserted[if i < at then i else i + 1] == other;
    }
  }

  /** The names of a map in the order `sort.Strings` gives them. */
  method SortNames(names: set<string>) returns (sorted: seq<string>)
    ensures StrictlySorted(sorted) && Elements(sorted) == names
  {
    sorted := [];
    var pending := names;
    while pending != {}
      invariant pending <= names
      invariant StrictlySorted(sorted) && Elements(sorted) == names - pending
      decreases pending
    {
      var name :| name in pending;
      var at := 0;
      while at < |sorted| && Before(sorted[at], name)
        invariant at <= |sorted|
        invariant forall i :: 0 <= i < at ==> Before(sorted[i], name)
      {
        at := at + 1;
      }
      forall i | at <= i < |sorted| ensures Before(name, sorted[i]) {
        assert sorted[at] in Elements(sorted);
        BeforeIsTotal(sorted[at], name);
        if i > at {
          BeforeIsTransitive(name, sorted[at], sorted[i]);
        }
      }
      InsertSorted(sorted, at, name);
      sorted := sorted[..at] + [name] + sorted[at..];
      pending := pending - {name};
    }
  }

  /** There is only one sorted order, so whatever is sorted does not depend on map iteration order. */
  lemma {:induction false} SortedIsUnique(first: seq<string>, second: seq<string>)
    requires StrictlySorted(first) && StrictlySorted(second)
    requires Elements(first) == Elements(second)
    ensures first == second
  {
    FirstElement(first);
    FirstElement(second);
    if first != [] && second != [] {
      LeastIsFirst(first, second[0]);
      LeastIsFirst(second, first[0]);
      BeforeIsTotal(first[0], second[0]);
      TailElements(first);
      TailElements(second);
      SortedIsUnique(first[1..], second[1..]);
    }
  }

  lemma FirstElement(names: seq<string>)
    ensures names != [] ==> names[0] in Elements(names)
  {
  }

  lemma LeastIsFirst(names: seq<string>, name: string)
    requires StrictlySorted(names) && names != []
    ensures name in Elements(names) ==> name == names[0] || Before(names[0], name)
  {
  }

  lemma TailElements(names: seq<string>)
    requires StrictlySorted(names) && names != []
    ensures Elements(names[1..]) == Elements(names) - {names[0]}
    ensures StrictlySorted(names[1..])
  {
    forall name | name in names[1..] ensures name != names[0] {
      var i :| 0 <= i < |names| - 1 && names[1..][i] == name;
      BeforeIsIrreflexive(name);
    }
    assert names == [names[0]] + names[1..];
  }
}
