/**
  `parseHeaders` of run.php: the raw header block of a fetched mail, trimmed
  and cut at every "\n", read line by line into an insertion-ordered map from
  header name to value.

  A line that starts with a space or a tab continues the header read last and
  is appended to its value after a "\n". Any other line starts a header: the
  name is the text before its first ':' and the value is the trimmed rest. A
  line of the second kind without a ':' (the empty line among them) leaves
  `list($name, $value)` with a null value, and `trim(null)` under
  `declare(strict_types=1)` raises a TypeError that ends the script; that is
  the failure case here. A continuation before any header is appended to the
  key "" (PHP reads the missing entry as null and creates it).
*/
module HeaderParser {
  import opened Optional
  import opened Text
  import opened OrderedMap

  /** A line of the header block, classified as run.php does it. */
  datatype Line = Field(name: string, value: string) | Continuation(text: string)

  /** The characters that mark a folded (continuation) line. */
  predicate IsFoldMarker(c: char) {
    c == ' ' || c == '\t'
  }

  /** Lines run.php can process without raising an error. */
  predicate WellFormedLine(line: string) {
    (|line| > 0 && IsFoldMarker(line[0])) || ':' in line
  }

  function ClassifyLine(line: string): (r: Option<Line>)
    ensures r.Some? <==> WellFormedLine(line)
    ensures r.Some? && r.value.Continuation? ==>
              |line| > 0 && IsFoldMarker(line[0]) && r.value.text == line
    ensures r.Some? && r.value.Field? ==>
              && (|line| == 0 || !IsFoldMarker(line[0]))
              && ':' !in r.value.name
              && |r.value.name| < |line|
              && line[..|r.value.name|] == r.value.name
              && line[|r.value.name|] == ':'
              && r.value.value == Trim(line[|r.value.name| + 1..])
  {
    if |line| > 0 && IsFoldMarker(line[0]) then Some(Continuation(line))
    else match IndexOf(line, ':')
      case None => None
      case Some(i) => Some(Field(line[..i], Trim(line[i + 1..])))
  }

  /** Classifies every line, or reports the first one run.php fails on. */
  function ClassifyAll(lines: seq<string>): (r: Result<seq<Line>, nat>)
    ensures r.Success? <==> forall i :: 0 <= i < |lines| ==> WellFormedLine(lines[i])
    ensures r.Success? ==> |r.value| == |lines|
                           && forall i :: 0 <= i < |lines| ==> ClassifyLine(lines[i]) == Some(r.value[i])
    ensures r.Failure? ==> r.error < |lines| && !WellFormedLine(lines[r.error])
                           && forall i :: 0 <= i < r.error ==> WellFormedLine(lines[i])
  {
    if |lines| == 0 then Success([])
    else match ClassifyLine(lines[0])
      case None => Failure(0)
      case Some(l) =>
        match ClassifyAll(lines[1..])
        case Failure(i) => Failure(i + 1)
        case Success(ls) => Success([l] + ls)
  }

  /**
    `explode("\n", trim($header))`: the lines of the trimmed block, which
    join back to it. `trim` strips leading spaces and tabs, so the first line
    never starts with a fold marker.
  */
  function HeaderLines(raw: string): (lines: seq<string>)
    ensures |lines| >= 1
    ensures forall i :: 0 <= i < |lines| ==> '\n' !in lines[i]
    ensures Join(lines, "\n") == Trim(raw)
    ensures lines[0] == "" || !IsFoldMarker(lines[0][0])
  {
    var t := Trim(raw);
    var lines := Split(t, '\n');
    assert lines[0] != "" ==> lines[0][0] == t[0];
    lines
  }

  /** The loop state of `parseHeaders`: the array built so far and `$name`. */
  datatype ParseState = ParseState(headers: seq<Entry>, current: string)

  /** One iteration of the `foreach` over the lines. */
  function Step(st: ParseState, l: Line): (r: ParseState)
    requires DistinctKeys(st.headers)
    ensures DistinctKeys(r.headers)
    ensures l.Field? ==>
              && r.current == l.name
              && Lookup(r.headers, l.name) == Some(l.value)
              && Keys(r.headers) == (if l.name in Keys(st.headers) then Keys(st.headers)
                                     else Keys(st.headers) + [l.name])
    ensures l.Continuation? ==>
              && r.current == st.current
              && Lookup(r.headers, st.current) ==
                 Some(Lookup(st.headers, st.current).GetOr("") + ("\n" + l.text))
              && (st.current in Keys(st.headers) ==> Keys(r.headers) == Keys(st.headers))
    ensures forall k :: k != r.current ==> Lookup(r.headers, k) == Lookup(st.headers, k)
  {
    match l
    case Field(name, value) => ParseState(Put(st.headers, name, value), name)
    case Continuation(text) => ParseState(Append(st.headers, st.current, "\n" + text), st.current)
  }

  /** The `foreach` itself: a left fold of `Step` from the empty array and `$name = ''`. */
  function Fold(ls: seq<Line>): (r: ParseState)
    ensures DistinctKeys(r.headers)
  {
    if |ls| == 0 then ParseState([], "")
    else Step(Fold(ls[..|ls| - 1]), ls[|ls| - 1])
  }

  /**
    `parseHeaders($header)`: the header map, or the index of the line that
    makes the PHP function fail.
  */
  function ParseHeaders(raw: string): (r: Result<seq<Entry>, nat>)
    ensures r.Failure? <==>
              exists i :: 0 <= i < |HeaderLines(raw)| && !WellFormedLine(HeaderLines(raw)[i])
    ensures r.Failure? ==> r.error < |HeaderLines(raw)| && !WellFormedLine(HeaderLines(raw)[r.error])
    ensures r.Success? ==> DistinctKeys(r.value)
  {
    match ClassifyAll(HeaderLines(raw))
    case Failure(i) => Failure(i)
    case Success(ls) => Success(Fold(ls).headers)
  }

  // ---------------------------------------------------------------------------
  // A declarative description of the result, independent of the fold: each
  // name's value is the value of its LAST header line followed by the folded
  // lines right after it, and names appear in order of first occurrence.
  // ---------------------------------------------------------------------------

  /** Every line is a continuation line. */
  ghost predicate AllContinuations(ls: seq<Line>) {
    forall j :: 0 <= j < |ls| ==> ls[j].Continuation?
  }

  /** Position of the last header line named `k`. */
  function LastField(ls: seq<Line>, k: string): (r: Option<nat>)
    ensures r.Some? ==> r.value < |ls| && ls[r.value].Field? && ls[r.value].name == k
    ensures r.Some? ==> forall j :: r.value < j < |ls| ==> !(ls[j].Field? && ls[j].name == k)
    ensures r.None? ==> forall j :: 0 <= j < |ls| ==> !(ls[j].Field? && ls[j].name == k)
  {
    if |ls| == 0 then None
    else if ls[|ls| - 1].Field? && ls[|ls| - 1].name == k then Some(|ls| - 1)
    else LastField(ls[..|ls| - 1], k)
  }

  /** Position of the last header line of any name. */
  function LastAnyField(ls: seq<Line>): (r: Option<nat>)
    ensures r.Some? ==> r.value < |ls| && ls[r.value].Field?
                        && AllContinuations(ls[r.value + 1..])
    ensures r.None? ==> AllContinuations(ls)
  {
    if |ls| == 0 then None
    else if ls[|ls| - 1].Field? then Some(|ls| - 1)
    else
      var r := LastAnyField(ls[..|ls| - 1]);
      assert r.Some? ==> ls[r.value + 1..] == ls[..|ls| - 1][r.value + 1..] + [ls[|ls| - 1]];
      r
  }

  /** The name a continuation line is appended to: that of the last header line, or "". */
  function OpenName(ls: seq<Line>): string {
    match LastAnyField(ls)
    case Some(j) => ls[j].name
    case None => ""
  }

  /** The folded text of the continuation lines at the front of `ls`: "\n" + line, each. */
  function FoldedText(ls: seq<Line>): string {
    if |ls| > 0 && ls[0].Continuation? then "\n" + ls[0].text + FoldedText(ls[1..])
    else ""
  }

  /** The value `parseHeaders` should give the name `k`, if any. */
  function ExpectedValue(ls: seq<Line>, k: string): Option<string> {
    match LastField(ls, k)
    case Some(i) => Some(ls[i].value + FoldedText(ls[i + 1..]))
    case None =>
      if k == "" && |ls| > 0 && ls[0].Continuation? then Some(FoldedText(ls)) else None
  }

  /** The names of the header lines, in order. */
  function FieldNames(ls: seq<Line>): seq<string> {
    if |ls| == 0 then []
    else FieldNames(ls[..|ls| - 1]) + (if ls[|ls| - 1].Field? then [ls[|ls| - 1].name] else [])
  }

  /** The names that receive a value, with "" first when the block opens with a continuation. */
  function OwnerNames(ls: seq<Line>): seq<string> {
    (if |ls| > 0 && ls[0].Continuation? then [""] else []) + FieldNames(ls)
  }

  /** One more line extends the folded text only when it continues an unbroken run. */
  lemma {:induction false} FoldedTextSnoc(s: seq<Line>, l: Line)
    ensures FoldedText(s + [l]) ==
              if AllContinuations(s) && l.Continuation? then FoldedText(s) + "\n" + l.text
              else FoldedText(s)
    decreases |s|
  {
    if |s| == 0 {
      assert s + [l] == [l];
      assert [l][1..] == [];
    } else if s[0].Continuation? {
      assert (s + [l])[1..] == s[1..] + [l];
      FoldedTextSnoc(s[1..], l);
      assert AllContinuations(s) <==> AllContinuations(s[1..]) by {
        if AllContinuations(s[1..]) {
          forall j | 0 <= j < |s| ensures s[j].Continuation? {
            if j > 0 { assert s[j] == s[1..][j - 1]; }
          }
        }
      }
    }
  }

  /** `$name` after a prefix of lines is the name of the last header line. */
  lemma {:induction false} FoldCurrent(ls: seq<Line>)
    ensures Fold(ls).current == OpenName(ls)
    decreases |ls|
  {
    if |ls| > 0 {
      FoldCurrent(ls[..|ls| - 1]);
    }
  }

  /** The last header line of all is also the last one of its name. */
  lemma OpenFieldIsLastOfName(p: seq<Line>, j: nat)
    requires LastAnyField(p) == Some(j)
    ensures LastField(p, p[j].name) == Some(j)
  {
    var i := LastField(p, p[j].name).value;
    assert i <= j;
  }

  /** The last header line named `k` is open exactly when only continuations follow it. */
  lemma OpenIffFollowedByContinuations(p: seq<Line>, k: string, i: nat)
    requires LastField(p, k) == Some(i)
    ensures AllContinuations(p[i + 1..]) <==> OpenName(p) == k
  {
    match LastAnyField(p) {
      case Some(j) =>
        OpenFieldIsLastOfName(p, j);
        if AllContinuations(p[i + 1..]) {
          assert j <= i;
        }
      case None =>
    }
  }

  /** Without any header line named `k`, the open name is `k` only for the key "" of a leading run. */
  lemma OpenWithoutField(p: seq<Line>, k: string)
    requires LastField(p, k).None?
    ensures OpenName(p) == k <==> k == "" && AllContinuations(p)
  {
    match LastAnyField(p) {
      case Some(j) =>
        OpenFieldIsLastOfName(p, j);
      case None =>
    }
  }

  /** A header line changes the expected value of its own name only. */
  lemma ExpectedAfterField(ls: seq<Line>, k: string)
    requires |ls| > 0 && ls[|ls| - 1].Field?
    ensures ExpectedValue(ls, k) ==
              if k == ls[|ls| - 1].name then Some(ls[|ls| - 1].value)
              else ExpectedValue(ls[..|ls| - 1], k)
  {
    var p, l := ls[..|ls| - 1], ls[|ls| - 1];
    if k == l.name {
      assert ls[|ls|..] == [];
      assert l.value + FoldedText([]) == l.value;
    } else if LastField(p, k).Some? {
      ExpectedAfterOtherField(ls, k, LastField(p, k).value);
    } else {
      ExpectedAfterFieldNoField(ls, k);
    }
  }

  /** A header line of another name after the last one named `k` ends the folded run of `k`. */
  lemma ExpectedAfterOtherField(ls: seq<Line>, k: string, i: nat)
    requires |ls| > 0 && ls[|ls| - 1].Field? && ls[|ls| - 1].name != k
    requires LastField(ls[..|ls| - 1], k) == Some(i)
    ensures ExpectedValue(ls, k) == ExpectedValue(ls[..|ls| - 1], k)
  {
    var p, l := ls[..|ls| - 1], ls[|ls| - 1];
    assert ls[i + 1..] == p[i + 1..] + [l];
    FoldedTextSnoc(p[i + 1..], l);
  }

  /** A header line of another name when there is no line named `k` leaves `k`'s value alone. */
  lemma ExpectedAfterFieldNoField(ls: seq<Line>, k: string)
    requires |ls| > 0 && ls[|ls| - 1].Field? && ls[|ls| - 1].name != k
    requires LastField(ls[..|ls| - 1], k).None?
    ensures ExpectedValue(ls, k) == ExpectedValue(ls[..|ls| - 1], k)
  {
    var p, l := ls[..|ls| - 1], ls[|ls| - 1];
    assert ls == p + [l];
    FoldedTextSnoc(p, l);
    if |p| > 0 {
      assert ls[0] == p[0];
    }
  }

  /** Continuation after a prefix with a header line named `k`. */
  lemma ExpectedAfterContinuationOfField(ls: seq<Line>, k: string, i: nat)
    requires |ls| > 0 && ls[|ls| - 1].Continuation?
    requires LastField(ls[..|ls| - 1], k) == Some(i)
    ensures ExpectedValue(ls, k) ==
              if k == OpenName(ls[..|ls| - 1])
              then Some(ExpectedValue(ls[..|ls| - 1], k).GetOr("") + ("\n" + ls[|ls| - 1].text))
              else ExpectedValue(ls[..|ls| - 1], k)
  {
    var p, l := ls[..|ls| - 1], ls[|ls| - 1];
    assert LastField(ls, k) == Some(i);
    assert ls[i] == p[i];
    assert ls[i + 1..] == p[i + 1..] + [l];
    FoldedTextSnoc(p[i + 1..], l);
    OpenIffFollowedByContinuations(p, k, i);
    assert ExpectedValue(p, k) == Some(p[i].value + FoldedText(p[i + 1..]));
    assert ExpectedValue(ls, k) == Some(p[i].value + FoldedText(ls[i + 1..]));
    if k == OpenName(p) {
      FieldValueExtended(p[i].value, FoldedText(p[i + 1..]), FoldedText(ls[i + 1..]), l.text);
    }
  }

  /** Appending a folded line to a value already holding the earlier folded lines. */
  lemma FieldValueExtended(v: string, before: string, after: string, text: string)
    requires after == before + "\n" + text
    ensures v + after == (v + before) + ("\n" + text)
  {
  }

  /** Continuation after a prefix without a header line named `k`. */
  lemma ExpectedAfterContinuationNoField(ls: seq<Line>, k: string)
    requires |ls| > 0 && ls[|ls| - 1].Continuation?
    requires LastField(ls[..|ls| - 1], k).None?
    ensures ExpectedValue(ls, k) ==
              if k == OpenName(ls[..|ls| - 1])
              then Some(ExpectedValue(ls[..|ls| - 1], k).GetOr("") + ("\n" + ls[|ls| - 1].text))
              else ExpectedValue(ls[..|ls| - 1], k)
  {
    var p, l := ls[..|ls| - 1], ls[|ls| - 1];
    assert ls == p + [l];
    FoldedTextSnoc(p, l);
    OpenWithoutField(p, k);
    if |p| > 0 {
      assert ls[0] == p[0];
    } else {
      assert FoldedText(p) == "";
    }
    if k == OpenName(p) {
      assert FoldedText(p) + "\n" + l.text == FoldedText(p) + ("\n" + l.text);
    }
  }

  /**
    Every name the parser produces holds the value of its last header line
    followed by exactly the folded lines that come right after that line.
  */
  lemma {:induction false} FoldValue(ls: seq<Line>, k: string)
    ensures Lookup(Fold(ls).headers, k) == ExpectedValue(ls, k)
    decreases |ls|
  {
    if |ls| == 0 {
      return;
    }
    var p := ls[..|ls| - 1];
    FoldValue(p, k);
    if ls[|ls| - 1].Field? {
      ExpectedAfterField(ls, k);
    } else {
      FoldCurrent(p);
      match LastField(p, k) {
        case Some(i) => ExpectedAfterContinuationOfField(ls, k, i);
        case None => ExpectedAfterContinuationNoField(ls, k);
      }
    }
  }

  /** The open name of a non-empty prefix always has a value. */
  lemma OpenNameHasValue(p: seq<Line>)
    requires |p| > 0
    ensures ExpectedValue(p, OpenName(p)).Some?
  {
    match LastAnyField(p) {
      case Some(j) => OpenFieldIsLastOfName(p, j);
      case None => assert p[0].Continuation?;
    }
  }

  /** The owner names grow by the name of each header line, and by nothing else after the first line. */
  lemma OwnerNamesSnoc(ls: seq<Line>)
    requires |ls| > 0
    ensures var p, l := ls[..|ls| - 1], ls[|ls| - 1];
            OwnerNames(ls) ==
              if |p| == 0 && l.Continuation? then [""]
              else OwnerNames(p) + (if l.Field? then [l.name] else [])
  {
    var p, l := ls[..|ls| - 1], ls[|ls| - 1];
    var tail := if l.Field? then [l.name] else [];
    assert FieldNames(ls) == FieldNames(p) + tail;
    if |p| > 0 {
      assert p[0] == ls[0];
    } else {
      assert FieldNames(p) == [];
    }
  }

  /** Dedup of a sequence extended by one element. */
  lemma DedupSnoc(s: seq<string>, x: string)
    ensures Dedup(s + [x]) == if x in Dedup(s) then Dedup(s) else Dedup(s) + [x]
  {
    assert (s + [x])[..|s|] == s;
  }

  /** A header line: its name joins the keys unless it is already there. */
  lemma KeysStepField(ls: seq<Line>)
    requires |ls| > 0 && ls[|ls| - 1].Field?
    requires Keys(Fold(ls[..|ls| - 1]).headers) == Dedup(OwnerNames(ls[..|ls| - 1]))
    ensures Keys(Fold(ls).headers) == Dedup(OwnerNames(ls))
  {
    var p, l := ls[..|ls| - 1], ls[|ls| - 1];
    OwnerNamesSnoc(ls);
    assert OwnerNames(ls) == OwnerNames(p) + [l.name];
    DedupSnoc(OwnerNames(p), l.name);
    var st := Fold(p);
    assert Fold(ls) == Step(st, l);
  }

  /** A continuation line: the keys stay, except that a leading one creates "". */
  lemma KeysStepContinuation(ls: seq<Line>)
    requires |ls| > 0 && ls[|ls| - 1].Continuation?
    requires Keys(Fold(ls[..|ls| - 1]).headers) == Dedup(OwnerNames(ls[..|ls| - 1]))
    ensures Keys(Fold(ls).headers) == Dedup(OwnerNames(ls))
  {
    var p, l := ls[..|ls| - 1], ls[|ls| - 1];
    OwnerNamesSnoc(ls);
    var st := Fold(p);
    assert Fold(ls) == Step(st, l);
    if |p| > 0 {
      assert OwnerNames(ls) == OwnerNames(p);
      OpenNameIsKey(p);
      assert st.current in Keys(st.headers);
    } else {
      DedupSnoc([], "");
    }
  }

  /** After a non-empty prefix, `$name` is a key of the array. */
  lemma OpenNameIsKey(p: seq<Line>)
    requires |p| > 0
    ensures Fold(p).current in Keys(Fold(p).headers)
  {
    FoldCurrent(p);
    OpenNameHasValue(p);
    FoldValue(p, OpenName(p));
  }

  /** The parser's keys are the owner names, deduplicated in order of first occurrence. */
  lemma {:induction false} FoldKeys(ls: seq<Line>)
    ensures Keys(Fold(ls).headers) == Dedup(OwnerNames(ls))
    decreases |ls|
  {
    if |ls| > 0 {
      FoldKeys(ls[..|ls| - 1]);
      if ls[|ls| - 1].Field? {
        KeysStepField(ls);
      } else {
        KeysStepContinuation(ls);
      }
    }
  }

  /**
    A readable block opens with a header line, so the key "" of a leading
    continuation never arises from `parseHeaders` itself, only from the fold
    on arbitrary lines.
  */
  lemma NoLeadingContinuation(raw: string, ls: seq<Line>)
    requires ClassifyAll(HeaderLines(raw)) == Success(ls)
    ensures |ls| > 0 && ls[0].Field?
    ensures OwnerNames(ls) == FieldNames(ls)
  {
    var lines := HeaderLines(raw);
    assert ClassifyLine(lines[0]) == Some(ls[0]);
    assert WellFormedLine(lines[0]);
  }

  /**
    The header map of a well-formed block: each name maps to its expected
    value, the names come in order of first occurrence, and a name that no
    line carries is absent.
  */
  lemma ParseHeadersMeaning(raw: string, ls: seq<Line>)
    requires ClassifyAll(HeaderLines(raw)) == Success(ls)
    ensures ParseHeaders(raw).Success?
    ensures forall k :: Lookup(ParseHeaders(raw).value, k) == ExpectedValue(ls, k)
    ensures Keys(ParseHeaders(raw).value) == Dedup(OwnerNames(ls))
  {
    forall k ensures Lookup(Fold(ls).headers, k) == ExpectedValue(ls, k) {
      FoldValue(ls, k);
    }
    FoldKeys(ls);
  }
}
