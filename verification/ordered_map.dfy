/**
  A PHP array with string keys: an insertion-ordered map. Assigning to a key
  that is already present replaces its value in place (the key keeps its
  position); assigning to a new key appends it at the end.
*/
module OrderedMap {
  import opened Optional

  datatype Entry = Entry(name: string, value: string)

  /** The keys in iteration order. */
  function Keys(m: seq<Entry>): (ks: seq<string>)
    ensures |ks| == |m|
    ensures forall i :: 0 <= i < |m| ==> ks[i] == m[i].name
  {
    if |m| == 0 then [] else Keys(m[..|m| - 1]) + [m[|m| - 1].name]
  }

  /** No key occurs twice, which every PHP array satisfies. */
  ghost predicate DistinctKeys(m: seq<Entry>) {
    forall i, j :: 0 <= i < j < |m| ==> m[i].name != m[j].name
  }

  /** Position of the first entry with key `k`. */
  function Find(m: seq<Entry>, k: string): (r: Option<nat>)
    ensures r.Some? ==> r.value < |m| && m[r.value].name == k
                        && forall j :: 0 <= j < r.value ==> m[j].name != k
    ensures r.None? <==> k !in Keys(m)
  {
    if |m| == 0 then None
    else if m[0].name == k then Some(0)
    else match Find(m[1..], k)
      case None => None
      case Some(i) => Some(i + 1)
  }

  /** `$m[$k] ?? null`: the value stored under `k`. */
  function Lookup(m: seq<Entry>, k: string): (r: Option<string>)
    ensures r.Some? <==> k in Keys(m)
  {
    match Find(m, k)
    case None => None
    case Some(i) => Some(m[i].value)
  }

  /** In a map without repeated keys, every entry is what its key looks up. */
  lemma LookupAt(m: seq<Entry>, i: nat)
    requires DistinctKeys(m)
    requires i < |m|
    ensures Lookup(m, m[i].name) == Some(m[i].value)
  {
    assert Keys(m)[i] == m[i].name;
  }

  /** Two maps with the same keys, position by position, agree on every key whose entry is the same. */
  lemma LookupSameEntry(m: seq<Entry>, r: seq<Entry>, k: string)
    requires DistinctKeys(m) && DistinctKeys(r)
    requires |m| <= |r|
    requires forall j :: 0 <= j < |m| ==> r[j].name == m[j].name
    requires forall j :: |m| <= j < |r| ==> r[j].name != k
    requires forall j :: 0 <= j < |m| && m[j].name == k ==> r[j] == m[j]
    ensures Lookup(r, k) == Lookup(m, k)
  {
    if k in Keys(m) {
      var j :| 0 <= j < |m| && Keys(m)[j] == k;
      LookupAt(m, j);
      LookupAt(r, j);
    } else {
      assert forall j :: 0 <= j < |r| ==> Keys(r)[j] != k;
    }
  }

  /** Adding an entry under a new key at the end. */
  lemma LookupAppended(m: seq<Entry>, k: string, v: string)
    requires DistinctKeys(m)
    requires k !in Keys(m)
    ensures DistinctKeys(m + [Entry(k, v)])
    ensures Lookup(m + [Entry(k, v)], k) == Some(v)
    ensures forall k' :: k' != k ==> Lookup(m + [Entry(k, v)], k') == Lookup(m, k')
    ensures Keys(m + [Entry(k, v)]) == Keys(m) + [k]
  {
    var r := m + [Entry(k, v)];
    assert forall j :: 0 <= j < |m| ==> Keys(m)[j] != k;
    LookupAt(r, |m|);
    forall k' | k' != k
      ensures Lookup(r, k') == Lookup(m, k')
    {
      LookupSameEntry(m, r, k');
    }
  }

  /** Replacing the value of the entry at position `i`. */
  lemma LookupReplaced(m: seq<Entry>, i: nat, k: string, v: string)
    requires DistinctKeys(m)
    requires i < |m| && m[i].name == k
    ensures DistinctKeys(m[i := Entry(k, v)])
    ensures Lookup(m[i := Entry(k, v)], k) == Some(v)
    ensures forall k' :: k' != k ==> Lookup(m[i := Entry(k, v)], k') == Lookup(m, k')
    ensures Keys(m[i := Entry(k, v)]) == Keys(m)
  {
    var r := m[i := Entry(k, v)];
    LookupAt(r, i);
    forall k' | k' != k
      ensures Lookup(r, k') == Lookup(m, k')
    {
      LookupSameEntry(m, r, k');
    }
  }

  /** `$m[$k] = $v`. */
  function Put(m: seq<Entry>, k: string, v: string): (r: seq<Entry>)
    requires DistinctKeys(m)
    ensures DistinctKeys(r)
    ensures Lookup(r, k) == Some(v)
    ensures forall k' :: k' != k ==> Lookup(r, k') == Lookup(m, k')
    ensures Keys(r) == if k in Keys(m) then Keys(m) else Keys(m) + [k]
  {
    match Find(m, k)
    case None =>
      LookupAppended(m, k, v);
      m + [Entry(k, v)]
    case Some(i) =>
      LookupReplaced(m, i, k, v);
      m[i := Entry(k, v)]
  }

  /**
    `$m[$k] .= $s`. On a missing key PHP reads null, which concatenates as the
    empty string, so the key is created holding `s` alone.
  */
  function Append(m: seq<Entry>, k: string, s: string): (r: seq<Entry>)
    requires DistinctKeys(m)
    ensures DistinctKeys(r)
    ensures Lookup(r, k) == Some(Lookup(m, k).GetOr("") + s)
    ensures forall k' :: k' != k ==> Lookup(r, k') == Lookup(m, k')
    ensures Keys(r) == if k in Keys(m) then Keys(m) else Keys(m) + [k]
  {
    Put(m, k, Lookup(m, k).GetOr("") + s)
  }

  /** The distinct elements of `s` in order of first occurrence. */
  function Dedup(s: seq<string>): (r: seq<string>)
    ensures forall x :: x in r <==> x in s
  {
    if |s| == 0 then []
    else
      var d := Dedup(s[..|s| - 1]);
      assert forall x :: x in s <==> x in s[..|s| - 1] || x == s[|s| - 1];
      if s[|s| - 1] in d then d else d + [s[|s| - 1]]
  }
}
