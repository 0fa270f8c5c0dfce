/**
  String primitives with PHP semantics: `strpos` for a single character,
  `explode` / `implode`, and `trim` with its default character list.
*/
module Text {
  import opened Optional

  /** The characters PHP's `trim` strips by default: " \t\n\r\0\x0B". */
  predicate IsPhpSpace(c: char) {
    c == ' ' || c == '\t' || c == '\n' || c == '\r' || c == '\0' || c == '\U{0B}'
  }

  /** Position of the first occurrence of `c` in `s`, if any. */
  function IndexOf(s: string, c: char): (r: Option<nat>)
    ensures r.Some? ==> r.value < |s| && s[r.value] == c
    ensures r.Some? ==> forall j :: 0 <= j < r.value ==> s[j] != c
    ensures r.None? ==> forall j :: 0 <= j < |s| ==> s[j] != c
  {
    if |s| == 0 then None
    else if s[0] == c then Some(0)
    else match IndexOf(s[1..], c)
      case None => None
      case Some(i) => Some(i + 1)
  }

  /** The total length of the parts. */
  function TotalLength(parts: seq<string>): nat {
    if |parts| == 0 then 0 else |parts[0]| + TotalLength(parts[1..])
  }

  /**
    `implode(sep, parts)`: the parts with `sep` between neighbours. It starts
    with the first part, ends with the last, and adds one separator per gap.
  */
  function Join(parts: seq<string>, sep: string): (r: string)
    ensures |parts| == 0 ==> r == ""
    ensures |parts| > 0 ==> |r| == TotalLength(parts) + (|parts| - 1) * |sep|
    decreases |parts|
  {
    if |parts| == 0 then ""
    else if |parts| == 1 then parts[0]
    else parts[0] + sep + Join(parts[1..], sep)
  }

  /** A single part is joined to itself, whatever the separator. */
  lemma JoinSingle(x: string, sep: string)
    ensures Join([x], sep) == x
  {
  }

  /**
    Joining a concatenation puts exactly one separator between the joins of
    its halves; with `JoinSingle` this fixes the content of `implode` for any
    separator string, such as ", ".
  */
  lemma {:induction false} JoinConcat(a: seq<string>, b: seq<string>, sep: string)
    requires |a| > 0 && |b| > 0
    ensures Join(a + b, sep) == Join(a, sep) + sep + Join(b, sep)
    decreases |a|
  {
    if |a| == 1 {
      assert (a + b)[1..] == b;
    } else {
      assert (a + b)[1..] == a[1..] + b;
      JoinConcat(a[1..], b, sep);
    }
  }

  /**
    `explode(sep, s)` for a one-character separator: the maximal pieces of `s`
    between occurrences of `sep`. There is always at least one piece, and the
    empty string yields one empty piece.
  */
  function Split(s: string, sep: char): (r: seq<string>)
    ensures |r| >= 1
    ensures |r[0]| <= |s| && r[0] == s[..|r[0]|]
    ensures forall i :: 0 <= i < |r| ==> sep !in r[i]
    ensures Join(r, [sep]) == s
    decreases |s|
  {
    match IndexOf(s, sep)
    case None => [s]
    case Some(i) =>
      var rest := Split(s[i + 1..], sep);
      assert s == s[..i] + [sep] + s[i + 1..];
      [s[..i]] + rest
  }

  /** Splitting what was joined gives the parts back, when no part contains the separator. */
  lemma {:induction false} SplitJoin(parts: seq<string>, sep: char)
    requires |parts| >= 1
    requires forall i :: 0 <= i < |parts| ==> sep !in parts[i]
    ensures Split(Join(parts, [sep]), sep) == parts
    decreases |parts|
  {
    if |parts| == 1 {
      assert Join(parts, [sep]) == parts[0];
    } else {
      var tail := Join(parts[1..], [sep]);
      var s := parts[0] + [sep] + tail;
      assert Join(parts, [sep]) == s;
      assert s[|parts[0]|] == sep;
      assert s[..|parts[0]|] == parts[0];
      assert IndexOf(s, sep) == Some(|parts[0]|);
      assert s[|parts[0]| + 1..] == tail;
      SplitJoin(parts[1..], sep);
    }
  }

  /** The number of PHP whitespace characters `s` starts with. */
  function LeadingSpace(s: string): (n: nat)
    ensures n <= |s|
    ensures forall i :: 0 <= i < n ==> IsPhpSpace(s[i])
    ensures n == |s| || !IsPhpSpace(s[n])
  {
    if |s| > 0 && IsPhpSpace(s[0]) then
      var n := 1 + LeadingSpace(s[1..]);
      assert forall i :: 0 < i < |s| ==> s[i] == s[1..][i - 1];
      n
    else 0
  }

  /** The length of `s` without the PHP whitespace it ends with. */
  function WithoutTrailingSpace(s: string): (n: nat)
    ensures n <= |s|
    ensures forall i :: n <= i < |s| ==> IsPhpSpace(s[i])
    ensures n == 0 || !IsPhpSpace(s[n - 1])
  {
    if |s| > 0 && IsPhpSpace(s[|s| - 1]) then WithoutTrailingSpace(s[..|s| - 1]) else |s|
  }

  /** `r` is `s[lead..]` cut short, and only whitespace was cut on either side. */
  ghost predicate StripsTo(s: string, lead: int, r: string) {
    && 0 <= lead <= |s| - |r|
    && r == s[lead..lead + |r|]
    && (forall i :: 0 <= i < lead ==> IsPhpSpace(s[i]))
    && (forall i :: lead + |r| <= i < |s| ==> IsPhpSpace(s[i]))
  }

  /**
    `trim(s)`: the slice of `s` left after stripping PHP whitespace at both
    ends; it neither starts nor ends with whitespace, and everything removed
    was whitespace.
  */
  function Trim(s: string): (r: string)
    ensures |r| <= |s|
    ensures r == [] || (!IsPhpSpace(r[0]) && !IsPhpSpace(r[|r| - 1]))
    ensures exists lead :: StripsTo(s, lead, r)
  {
    var lead := LeadingSpace(s);
    var t := s[lead..];
    var r := t[..WithoutTrailingSpace(t)];
    assert r == s[lead..lead + |r|];
    assert forall i :: lead + |r| <= i < |s| ==> s[i] == t[i - lead];
    assert StripsTo(s, lead, r);
    r
  }
}
