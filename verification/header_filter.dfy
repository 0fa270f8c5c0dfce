/**
  The custom headers of a forwarded mail, run.php lines 84-97: first
  `X-Forwarded-From` (the original sender) and `X-Forwarded-For` (the tags,
  joined by ", "), then every parsed header whose name is one of twelve fixed
  names (compared case-sensitively, `in_array(..., true)`), in the order of
  the parsed array, its value run through `decodeMimeStr`.

  The MIME decoder is a library call and enters as the uninterpreted
  function `decode`.
*/
module HeaderFilter {
  import opened Optional
  import opened Text
  import opened OrderedMap
  import opened HeaderParser

  /** The headers copied to the forwarded mail, exactly as spelled in run.php. */
  const PassThroughNames: seq<string> := [
    "List-Id", "List-Help", "X-Course-Id", "X-Course-Name", "Precedence",
    "X-Auto-Response-Suppress", "Auto-Submitted", "List-Unsubscribe",
    "Thread-Topic", "Thread-Index", "In-Reply-To", "Reply-To"
  ]

  const ForwardedFrom: string := "X-Forwarded-From"
  const ForwardedFor: string := "X-Forwarded-For"

  /** Looking up a key in a map that starts with a given entry. */
  lemma LookupCons(e: Entry, m: seq<Entry>, k: string)
    ensures Lookup([e] + m, k) == if e.name == k then Some(e.value) else Lookup(m, k)
  {
    assert ([e] + m)[1..] == m;
  }

  /** The `foreach ($headers ...)` loop: the listed headers, decoded, in array order. */
  function PassThrough(hs: seq<Entry>, decode: string -> string): (r: seq<Entry>)
    ensures |r| <= |hs|
    ensures forall i :: 0 <= i < |r| ==> r[i].name in PassThroughNames
  {
    if |hs| == 0 then []
    else
      var rest := PassThrough(hs[1..], decode);
      if hs[0].name in PassThroughNames
      then [Entry(hs[0].name, decode(hs[0].value))] + rest
      else rest
  }

  /**
    A name is forwarded exactly when it is listed and present, with its value
    decoded; so no unlisted header is ever forwarded.
  */
  lemma {:induction false} PassThroughLookup(hs: seq<Entry>, decode: string -> string, k: string)
    ensures Lookup(PassThrough(hs, decode), k) ==
              if k in PassThroughNames then Lookup(hs, k).Map(decode) else None
    decreases |hs|
  {
    if |hs| > 0 {
      var rest := PassThrough(hs[1..], decode);
      PassThroughLookup(hs[1..], decode, k);
      assert hs == [hs[0]] + hs[1..];
      LookupCons(hs[0], hs[1..], k);
      if hs[0].name in PassThroughNames {
        LookupCons(Entry(hs[0].name, decode(hs[0].value)), rest, k);
      }
    }
  }

  /** Headers are filtered one by one, so the filter keeps their relative order. */
  lemma {:induction false} PassThroughConcat(a: seq<Entry>, b: seq<Entry>, decode: string -> string)
    ensures PassThrough(a + b, decode) == PassThrough(a, decode) + PassThrough(b, decode)
    decreases |a|
  {
    if |a| > 0 {
      assert (a + b)[0] == a[0];
      assert (a + b)[1..] == a[1..] + b;
      PassThroughConcat(a[1..], b, decode);
    } else {
      assert a + b == b;
    }
  }

  /**
    The custom headers added to the outgoing mail, in the order of the
    `addCustomHeader` calls: the two synthesised ones, then exactly the
    passed-through headers, in parse order with decoded values.
  */
  function CustomHeaders(senderAddress: string, tags: seq<string>, parsed: seq<Entry>,
                         decode: string -> string): (r: seq<Entry>)
    ensures |r| == 2 + |PassThrough(parsed, decode)|
    ensures r[0] == Entry(ForwardedFrom, senderAddress)
    ensures r[1] == Entry(ForwardedFor, Join(tags, ", "))
    ensures forall i :: 2 <= i < |r| ==> r[i].name in PassThroughNames
    ensures r[2..] == PassThrough(parsed, decode)
  {
    [Entry(ForwardedFrom, senderAddress), Entry(ForwardedFor, Join(tags, ", "))]
      + PassThrough(parsed, decode)
  }

  /**
    End to end: of a header block run.php can parse, a listed header is
    forwarded with the decoding of its full folded value (its last header
    line plus the continuation lines after it), and no other header is.
  */
  lemma ForwardedHeaderValues(raw: string, ls: seq<Line>, decode: string -> string, k: string)
    requires ClassifyAll(HeaderLines(raw)) == Success(ls)
    ensures ParseHeaders(raw).Success?
    ensures Lookup(PassThrough(ParseHeaders(raw).value, decode), k) ==
              if k in PassThroughNames then ExpectedValue(ls, k).Map(decode) else None
  {
    ParseHeadersMeaning(raw, ls);
    PassThroughLookup(ParseHeaders(raw).value, decode, k);
  }
}
