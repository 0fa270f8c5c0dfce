/**
  Alias extraction, run.php lines 71-79: every `To` address is matched against
  `/^[^\+]+\+([^@]+)@/`. A match forwards the mail to `<tag>@<target domain>`
  under the recipient's display name and records the tag.

  The pattern reads: a non-empty run of characters other than '+', then '+',
  then a non-empty run of characters other than '@' (the tag), then '@'. A
  character class cannot contain the character that ends it, so the '+' is the
  first '+' of the address and the '@' is the first '@' after it; nothing
  after that '@' is looked at.
*/
module Alias {
  import opened Optional
  import opened Text

  /** A `To` entry: address and display name (`$mail->to` is address => name). */
  datatype Recipient = Recipient(address: string, name: string)

  /** The forwarding targets of one mail: the recipients added and the tags recorded. */
  datatype Targets = Targets(recipients: seq<Recipient>, tags: seq<string>)

  /** `address` splits as `local + "+" + tag + "@" + rest`, the shape the pattern accepts. */
  ghost predicate Matches(address: string, local: string, tag: string, rest: string) {
    && address == local + ['+'] + tag + ['@'] + rest
    && |local| > 0 && '+' !in local
    && |tag| > 0 && '@' !in tag
  }

  /** The first capture group of the pattern, when the address matches. */
  function ExtractTag(address: string): (r: Option<string>)
    ensures r.Some? ==> |r.value| > 0 && '@' !in r.value
  {
    match IndexOf(address, '+')
    case None => None
    case Some(p) =>
      if p == 0 then None
      else
        var after := address[p + 1..];
        match IndexOf(after, '@')
        case None => None
        case Some(q) =>
          if q == 0 then None
          else
            Some(after[..q])
  }

  /** A tag is only extracted from an address of the accepted shape. */
  lemma ExtractTagSound(address: string)
    requires ExtractTag(address).Some?
    ensures exists local, rest :: Matches(address, local, ExtractTag(address).value, rest)
  {
    var p := IndexOf(address, '+').value;
    var after := address[p + 1..];
    var q := IndexOf(after, '@').value;
    var tag := after[..q];
    assert address == address[..p] + ['+'] + tag + ['@'] + after[q + 1..];
    assert Matches(address, address[..p], tag, after[q + 1..]);
  }

  /** Every address of the accepted shape yields exactly its tag. */
  lemma ExtractTagComplete(address: string, local: string, tag: string, rest: string)
    requires Matches(address, local, tag, rest)
    ensures ExtractTag(address) == Some(tag)
  {
    assert address[|local|] == '+';
    assert address[..|local|] == local;
    assert IndexOf(address, '+') == Some(|local|);
    var after := address[|local| + 1..];
    assert after == tag + ['@'] + rest;
    assert after[|tag|] == '@';
    assert after[..|tag|] == tag;
    assert IndexOf(after, '@') == Some(|tag|);
  }

  /** No match exactly when the address has no decomposition of the accepted shape. */
  lemma ExtractTagNone(address: string)
    ensures ExtractTag(address).None? <==>
              forall local, tag, rest :: !Matches(address, local, tag, rest)
  {
    if !ExtractTag(address).None? {
      ExtractTagSound(address);
    } else {
      forall local, tag, rest ensures !Matches(address, local, tag, rest) {
        if Matches(address, local, tag, rest) {
          ExtractTagComplete(address, local, tag, rest);
        }
      }
    }
  }

  /**
    The `foreach ($mail->to ...)` loop: one forwarded recipient per matching
    address, at `<tag>@<domain>` under the original display name.
  */
  function CollectTargets(to: seq<Recipient>, domain: string): (r: Targets)
    ensures |r.recipients| == |r.tags|
    ensures forall i :: 0 <= i < |r.tags| ==>
              r.recipients[i].address == r.tags[i] + ['@'] + domain
    ensures forall i :: 0 <= i < |r.tags| ==>
              |r.tags[i]| > 0 && '@' !in r.tags[i]
  {
    if |to| == 0 then Targets([], [])
    else
      var front := CollectTargets(to[..|to| - 1], domain);
      var last := to[|to| - 1];
      match ExtractTag(last.address)
      case None => front
      case Some(t) =>
        var r := Targets(front.recipients + [Recipient(t + ['@'] + domain, last.name)], front.tags + [t]);
        assert forall i :: 0 <= i < |front.tags| ==> r.tags[i] == front.tags[i] && r.recipients[i] == front.recipients[i];
        r
  }

  /** Recipients are handled one by one: the targets of a concatenation concatenate. */
  lemma {:induction false} CollectTargetsConcat(a: seq<Recipient>, b: seq<Recipient>, domain: string)
    ensures CollectTargets(a + b, domain) ==
              Targets(CollectTargets(a, domain).recipients + CollectTargets(b, domain).recipients,
                      CollectTargets(a, domain).tags + CollectTargets(b, domain).tags)
    decreases |b|
  {
    if |b| == 0 {
      assert a + b == a;
    } else {
      var b' := b[..|b| - 1];
      assert (a + b)[..|a + b| - 1] == a + b';
      assert (a + b)[|a + b| - 1] == b[|b| - 1];
      CollectTargetsConcat(a, b', domain);
    }
  }

  /** A single recipient contributes its tag and forwarded address exactly when it matches. */
  lemma CollectTargetsSingle(x: Recipient, domain: string)
    ensures CollectTargets([x], domain) ==
              match ExtractTag(x.address)
              case None => Targets([], [])
              case Some(t) => Targets([Recipient(t + ['@'] + domain, x.name)], [t])
  {
    assert [x][..0] == [];
  }

  /** No tag is recorded exactly when no recipient address matches the pattern. */
  lemma {:induction false} NoTagsIffNoMatch(to: seq<Recipient>, domain: string)
    ensures CollectTargets(to, domain).tags == [] <==>
              forall i :: 0 <= i < |to| ==> ExtractTag(to[i].address).None?
    decreases |to|
  {
    if |to| > 0 {
      var front := to[..|to| - 1];
      NoTagsIffNoMatch(front, domain);
      assert forall i :: 0 <= i < |front| ==> front[i] == to[i];
    }
  }
}
