/**
  The sender allow-list, run.php lines 109-113. When the configured list is
  non-empty and the sender address is not strictly equal (`in_array(..., true)`)
  to one of its entries, the mail still goes out, but with the subject marked
  and the recipients replaced by the single abuse address. An empty list
  switches the check off.
*/
module AllowList {
  import opened Alias

  const RejectPrefix: string := "mail rejected: "

  /** The subject and recipients the allow-list may override. */
  datatype Routing = Routing(subject: string, recipients: seq<Recipient>)

  /** The condition of the `if` on line 109. */
  predicate Rejects(allowed: seq<string>, sender: string) {
    |allowed| > 0 && sender !in allowed
  }

  /** Applies the allow-list to the routing of one mail. */
  function Enforce(allowed: seq<string>, abuseAddress: string, sender: string, r: Routing): (out: Routing)
    ensures |allowed| == 0 ==> out == r
    ensures sender in allowed ==> out == r
    ensures |allowed| > 0 && sender !in allowed ==>
              out.subject == RejectPrefix + r.subject && out.recipients == [Recipient(abuseAddress, "")]
  {
    if Rejects(allowed, sender)
    then Routing(RejectPrefix + r.subject, [Recipient(abuseAddress, "")])
    else r
  }

  /**
    The subject is changed exactly for rejected senders, so a forwarded mail
    shows whether it was rejected; and a rejected mail reaches the abuse
    address alone.
  */
  lemma MarkedIffRejected(allowed: seq<string>, abuseAddress: string, sender: string, r: Routing)
    ensures Enforce(allowed, abuseAddress, sender, r).subject != r.subject <==> Rejects(allowed, sender)
    ensures Rejects(allowed, sender) ==>
              forall x :: x in Enforce(allowed, abuseAddress, sender, r).recipients ==> x.address == abuseAddress
  {
    if Rejects(allowed, sender) {
      assert |Enforce(allowed, abuseAddress, sender, r).subject| > |r.subject|;
    }
  }
}
