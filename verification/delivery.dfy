/**
  The delivery loop of run.php, lines 60-121: one pass over the fetched
  message ids, in fetch order, with a single PHPMailer object reused for every
  mail.

  Per mail: the recipients, reply-tos and custom headers are cleared; the
  sender is set; the alias recipients are added. A mail without a tag is
  skipped, neither sent nor deleted. Otherwise subject, message id, date, the
  custom headers and the body are set, the allow-list is applied and the mail
  is sent. Success deletes the source mail; failure prints the error and ends
  the run. A header block `parseHeaders` cannot read ends the run as well,
  before anything is sent.

  The mailbox and SMTP calls are left to their libraries: the fetched mails
  and the outcome of each `send()` are inputs, and the observable result is
  the ids handed to `send()`, the ids deleted, and how the run ended.
*/
module Delivery {
  import opened Optional
  import opened Text
  import opened OrderedMap
  import opened HeaderParser
  import opened Alias
  import opened HeaderFilter
  import opened AllowList
  import opened Body

  /** The part of `config.json` the loop reads (`target` and the allow-list keys). */
  datatype Config = Config(
    senderAddress: string,        // target.senderAddress
    domain: string,               // target.domain
    allowedSenders: seq<string>,  // allowedSenderAddresses, empty when absent
    abuseAddress: string)         // abuseAddress

  type MailId = int

  /** The fields of a fetched mail the loop reads. */
  datatype InboundMail = InboundMail(
    id: MailId,
    senderName: string,
    senderAddress: string,
    to: seq<Recipient>,
    subject: string,
    messageId: string,
    date: string,
    headersRaw: string,
    textPlain: string,
    textHtml: string)

  /** The fields of the PHPMailer object the loop writes; it lives across iterations. */
  datatype Outbox = Outbox(
    fromAddress: string,
    fromName: string,
    to: seq<Recipient>,
    replyTo: seq<Recipient>,
    customHeaders: seq<Entry>,
    subject: string,
    messageId: string,
    date: string,
    isHtml: bool,
    body: string,
    altBody: string)

  /** How one iteration ends. */
  datatype Disposition = Skipped | Sent | SendFailed | HeaderError

  datatype StepResult = StepResult(outbox: Outbox, disposition: Disposition)

  /** The mail carries at least one alias tag, so it reaches the send step. */
  predicate HasTargets(cfg: Config, mail: InboundMail) {
    CollectTargets(mail.to, cfg.domain).tags != []
  }

  /**
    One iteration of the `foreach ($mailsIds ...)` loop on the outbox left by
    the previous one. `sendOk` is what `send()` returns for this mail.
  */
  function ProcessMail(cfg: Config, decode: string -> string, o: Outbox,
                       mail: InboundMail, sendOk: bool): (r: StepResult)
    ensures r.disposition == Skipped <==> !HasTargets(cfg, mail)
    ensures r.disposition == HeaderError <==>
              HasTargets(cfg, mail) && ParseHeaders(mail.headersRaw).Failure?
    ensures r.disposition == Sent <==>
              HasTargets(cfg, mail) && ParseHeaders(mail.headersRaw).Success? && sendOk
    ensures r.disposition == SendFailed <==>
              HasTargets(cfg, mail) && ParseHeaders(mail.headersRaw).Success? && !sendOk
  {
    // lines 61-63: clearAddresses, clearReplyTos, clearCustomHeaders
    var o1 := o.(to := [], replyTo := [], customHeaders := []);
    // line 69: setFrom
    var o2 := o1.(fromAddress := cfg.senderAddress, fromName := mail.senderName);
    // lines 71-76: addAddress for every tagged recipient
    var targets := CollectTargets(mail.to, cfg.domain);
    var o3 := o2.(to := o2.to + targets.recipients);
    if targets.tags == [] then StepResult(o3, Skipped)
    else
      // lines 81-85
      var o4 := o3.(subject := mail.subject, messageId := mail.messageId, date := mail.date);
      var o5 := o4.(customHeaders := o4.customHeaders
                      + [Entry(ForwardedFrom, mail.senderAddress), Entry(ForwardedFor, Join(targets.tags, ", "))]);
      match ParseHeaders(mail.headersRaw)
      case Failure(_) => StepResult(o5, HeaderError)
      case Success(parsed) =>
        // lines 88-97
        var o6 := o5.(customHeaders := o5.customHeaders + PassThrough(parsed, decode));
        // lines 99-107
        var b := SelectBody(mail.textHtml, mail.textPlain);
        var o7 := o6.(isHtml := b.isHtml, body := b.body, altBody := b.altBody);
        // lines 109-113
        var routed := Enforce(cfg.allowedSenders, cfg.abuseAddress, mail.senderAddress,
                              Routing(o7.subject, o7.to));
        var o8 := o7.(subject := routed.subject, to := routed.recipients);
        // line 115
        StepResult(o8, if sendOk then Sent else SendFailed)
  }

  /** The outbox after a send step, written as one record. */
  lemma ComposedOutbox(cfg: Config, decode: string -> string, o: Outbox,
                       mail: InboundMail, sendOk: bool)
    requires HasTargets(cfg, mail) && ParseHeaders(mail.headersRaw).Success?
    ensures var targets := CollectTargets(mail.to, cfg.domain);
            var b := SelectBody(mail.textHtml, mail.textPlain);
            var routed := Enforce(cfg.allowedSenders, cfg.abuseAddress, mail.senderAddress,
                                  Routing(mail.subject, targets.recipients));
            ProcessMail(cfg, decode, o, mail, sendOk).outbox ==
              Outbox(cfg.senderAddress, mail.senderName, routed.recipients, [],
                     CustomHeaders(mail.senderAddress, targets.tags, ParseHeaders(mail.headersRaw).value, decode),
                     routed.subject, mail.messageId, mail.date, b.isHtml, b.body, b.altBody)
  {
    var targets := CollectTargets(mail.to, cfg.domain);
    var pair := [Entry(ForwardedFrom, mail.senderAddress), Entry(ForwardedFor, Join(targets.tags, ", "))];
    assert [] + pair == pair;
    assert [] + targets.recipients == targets.recipients;
  }

  /**
    The message handed to `send()`: sender, headers and body come from this
    mail and the configuration alone, whatever the outbox held before.
  */
  lemma SentMessage(cfg: Config, decode: string -> string, o: Outbox,
                    mail: InboundMail, sendOk: bool)
    requires HasTargets(cfg, mail) && ParseHeaders(mail.headersRaw).Success?
    ensures var r := ProcessMail(cfg, decode, o, mail, sendOk);
            var b := SelectBody(mail.textHtml, mail.textPlain);
            && r.outbox.fromAddress == cfg.senderAddress
            && r.outbox.fromName == mail.senderName
            && r.outbox.replyTo == []
            && r.outbox.customHeaders ==
                 CustomHeaders(mail.senderAddress, CollectTargets(mail.to, cfg.domain).tags,
                               ParseHeaders(mail.headersRaw).value, decode)
            && r.outbox.messageId == mail.messageId
            && r.outbox.date == mail.date
            && r.outbox.isHtml == b.isHtml
            && r.outbox.body == b.body
            && r.outbox.altBody == b.altBody
  {
    ComposedOutbox(cfg, decode, o, mail, sendOk);
  }

  /**
    Subject and recipients of the message handed to `send()`: the tagged
    recipients under the original subject, or the abuse address under a
    marked subject when the allow-list rejects the sender.
  */
  lemma SentRouting(cfg: Config, decode: string -> string, o: Outbox,
                    mail: InboundMail, sendOk: bool)
    requires HasTargets(cfg, mail) && ParseHeaders(mail.headersRaw).Success?
    ensures var r := ProcessMail(cfg, decode, o, mail, sendOk);
            && (Rejects(cfg.allowedSenders, mail.senderAddress) ==>
                  && r.outbox.subject == RejectPrefix + mail.subject
                  && r.outbox.to == [Recipient(cfg.abuseAddress, "")])
            && (!Rejects(cfg.allowedSenders, mail.senderAddress) ==>
                  && r.outbox.subject == mail.subject
                  && r.outbox.to == CollectTargets(mail.to, cfg.domain).recipients)
  {
    ComposedOutbox(cfg, decode, o, mail, sendOk);
  }

  /** Nothing of an earlier mail reaches the message composed for a later one. */
  lemma NothingCarriesOver(cfg: Config, decode: string -> string, o1: Outbox, o2: Outbox,
                           mail: InboundMail, sendOk: bool)
    ensures ProcessMail(cfg, decode, o1, mail, sendOk).disposition ==
            ProcessMail(cfg, decode, o2, mail, sendOk).disposition
    ensures ProcessMail(cfg, decode, o1, mail, sendOk).disposition in {Sent, SendFailed} ==>
              ProcessMail(cfg, decode, o1, mail, sendOk).outbox ==
              ProcessMail(cfg, decode, o2, mail, sendOk).outbox
  {
    if HasTargets(cfg, mail) && ParseHeaders(mail.headersRaw).Success? {
      SentMessage(cfg, decode, o1, mail, sendOk);
      SentMessage(cfg, decode, o2, mail, sendOk);
      SentRouting(cfg, decode, o1, mail, sendOk);
      SentRouting(cfg, decode, o2, mail, sendOk);
    }
  }

  datatype AbortReason = SendFailure | MalformedHeaderLine(line: nat)

  datatype RunOutcome = Completed | Aborted(id: MailId, reason: AbortReason)

  /** What a run shows: ids handed to `send()`, ids deleted, and how it ended. */
  datatype RunResult = RunResult(sent: seq<MailId>, deleted: seq<MailId>, outcome: RunOutcome)

  /**
    The loop over the fetched mails, with `oks[i]` the outcome of `send()`
    for `mails[i]` (ignored when that mail is never sent).

    Whatever mailer state it starts from, the run is the replay of the facts
    of its mails: it deletes the tagged mails before the first mail that ends
    the run, in fetch order; it hands those to `send()`, and the stopping mail
    as well when that mail got as far as `send()`; and it completes exactly
    when no mail ends it, otherwise it names that mail and the cause.
  */
  function Run(cfg: Config, decode: string -> string, o: Outbox,
               mails: seq<InboundMail>, oks: seq<bool>): (r: RunResult)
    requires |oks| == |mails|
    ensures r == Replay(Facts(cfg, mails, oks))
    ensures var fs := Facts(cfg, mails, oks);
            var n := StopIndex(fs);
            && r.deleted == TaggedIds(fs[..n])
            && r.sent == TaggedIds(fs[..n]) + StopSend(fs, n)
            && r.outcome == if n == |mails| then Completed
                            else match fs[n].headerError
                              case Some(line) => Aborted(mails[n].id, MalformedHeaderLine(line))
                              case None => Aborted(mails[n].id, SendFailure)
    decreases |mails|
  {
    ReplayTaggedPrefix(Facts(cfg, mails, oks));
    ReplayOutcome(Facts(cfg, mails, oks));
    if |mails| == 0 then RunResult([], [], Completed)
    else
      var m := mails[0];
      var step := ProcessMail(cfg, decode, o, m, oks[0]);
      ZipTail((m', ok) => FactOf(cfg, m', ok), mails, oks);
      match step.disposition
      case Skipped => Run(cfg, decode, step.outbox, mails[1..], oks[1..])
      case Sent =>
        // line 116: deleteMail, then on with the next id
        var rest := Run(cfg, decode, step.outbox, mails[1..], oks[1..]);
        RunResult([m.id] + rest.sent, [m.id] + rest.deleted, rest.outcome)
      case SendFailed =>
        // lines 118-119: echo ErrorInfo; exit
        RunResult([m.id], [], Aborted(m.id, SendFailure))
      case HeaderError =>
        RunResult([], [], Aborted(m.id, MalformedHeaderLine(ParseHeaders(m.headersRaw).error)))
  }

  // ---------------------------------------------------------------------------
  // The run described without the loop. Whether a mail is skipped, sent, or
  // ends the run depends on four facts about that mail alone, not on what the
  // previous iteration left in the mailer. The run stops at the first tagged
  // mail with an unreadable header block or a failed send; every tagged mail
  // before it is sent and deleted, and nothing after it is touched.
  // ---------------------------------------------------------------------------

  /** What the loop needs to know of one fetched mail. */
  datatype Fact = Fact(id: MailId, tagged: bool, headerError: Option<nat>, sendOk: bool)

  function FactOf(cfg: Config, mail: InboundMail, sendOk: bool): (f: Fact)
    ensures f.id == mail.id && f.sendOk == sendOk
    ensures f.tagged <==> HasTargets(cfg, mail)
    ensures f.headerError.Some? <==> ParseHeaders(mail.headersRaw).Failure?
    ensures f.headerError.Some? ==> f.headerError.value == ParseHeaders(mail.headersRaw).error
  {
    Fact(mail.id, HasTargets(cfg, mail),
         match ParseHeaders(mail.headersRaw)
         case Failure(line) => Some(line)
         case Success(_) => None,
         sendOk)
  }

  /** `f` applied to corresponding elements of two sequences of equal length. */
  function Zip<A, B, C>(f: (A, B) -> C, xs: seq<A>, ys: seq<B>): (r: seq<C>)
    requires |xs| == |ys|
    ensures |r| == |xs|
    ensures forall i :: 0 <= i < |xs| ==> r[i] == f(xs[i], ys[i])
    decreases |xs|
  {
    if |xs| == 0 then []
    else
      var rest := Zip(f, xs[1..], ys[1..]);
      assert forall i :: 0 < i < |xs| ==> xs[1..][i - 1] == xs[i] && ys[1..][i - 1] == ys[i];
      [f(xs[0], ys[0])] + rest
  }

  lemma ZipTail<A, B, C>(f: (A, B) -> C, xs: seq<A>, ys: seq<B>)
    requires |xs| == |ys| && |xs| > 0
    ensures Zip(f, xs, ys)[1..] == Zip(f, xs[1..], ys[1..])
  {
    assert ([f(xs[0], ys[0])] + Zip(f, xs[1..], ys[1..]))[1..] == Zip(f, xs[1..], ys[1..]);
  }

  /** The facts of the fetched mails, in fetch order: fact `i` describes mail `i`. */
  function Facts(cfg: Config, mails: seq<InboundMail>, oks: seq<bool>): (fs: seq<Fact>)
    requires |oks| == |mails|
    ensures |fs| == |mails|
    ensures forall i :: 0 <= i < |mails| ==> fs[i] == FactOf(cfg, mails[i], oks[i])
  {
    Zip((m, ok) => FactOf(cfg, m, ok), mails, oks)
  }

  /** The mail ends the run. */
  predicate Halts(f: Fact) {
    f.tagged && (f.headerError.Some? || !f.sendOk)
  }

  /** `Run` replayed on the facts alone. */
  function Replay(fs: seq<Fact>): RunResult
  {
    if |fs| == 0 then RunResult([], [], Completed)
    else AfterFact(fs[0], Replay(fs[1..]))
  }

  /** The effect of an iteration and the rest of the run, in terms of the first mail's facts. */
  function AfterFact(f: Fact, rest: RunResult): RunResult {
    if !f.tagged then rest
    else match f.headerError
      case Some(line) => RunResult([], [], Aborted(f.id, MalformedHeaderLine(line)))
      case None =>
        if f.sendOk then RunResult([f.id] + rest.sent, [f.id] + rest.deleted, rest.outcome)
        else RunResult([f.id], [], Aborted(f.id, SendFailure))
  }

  /** The position of the first mail that ends the run, or `|fs|` when none does. */
  function StopIndex(fs: seq<Fact>): (n: nat)
    ensures n <= |fs|
    ensures forall i :: 0 <= i < n ==> !Halts(fs[i])
    ensures n < |fs| ==> Halts(fs[n])
  {
    if |fs| == 0 || Halts(fs[0]) then 0 else 1 + StopIndex(fs[1..])
  }

  /** The ids of the tagged mails, in order. */
  function TaggedIds(fs: seq<Fact>): seq<MailId>
  {
    if |fs| == 0 then []
    else (if fs[0].tagged then [fs[0].id] else []) + TaggedIds(fs[1..])
  }

  /** An id is listed exactly when some tagged mail carries it. */
  lemma {:induction false} TaggedIdsMembers(fs: seq<Fact>, id: MailId)
    ensures id in TaggedIds(fs) <==> exists i :: 0 <= i < |fs| && fs[i].id == id && fs[i].tagged
    decreases |fs|
  {
    if |fs| > 0 {
      TaggedIdsMembers(fs[1..], id);
      if id in TaggedIds(fs[1..]) {
        var i :| 0 <= i < |fs[1..]| && fs[1..][i].id == id && fs[1..][i].tagged;
        assert fs[i + 1] == fs[1..][i];
      }
      if exists i :: 0 <= i < |fs| && fs[i].id == id && fs[i].tagged {
        var i :| 0 <= i < |fs| && fs[i].id == id && fs[i].tagged;
        if i > 0 {
          assert fs[1..][i - 1] == fs[i];
        }
      }
    }
  }

  /** The id of the mail at the stopping point when its send was attempted. */
  function StopSend(fs: seq<Fact>, n: nat): seq<MailId> {
    if n < |fs| && fs[n].headerError.None? then [fs[n].id] else []
  }

  /** The stopping point and the tagged prefix, seen from the second mail on. */
  lemma StopPastFirst(fs: seq<Fact>)
    requires |fs| > 0 && !Halts(fs[0])
    ensures var here := if fs[0].tagged then [fs[0].id] else [];
            var n := StopIndex(fs);
            && n == 1 + StopIndex(fs[1..])
            && StopSend(fs[1..], n - 1) == StopSend(fs, n)
            && TaggedIds(fs[..n]) == here + TaggedIds(fs[1..][..n - 1])
  {
    var n := StopIndex(fs);
    assert fs[..n][0] == fs[0];
    assert fs[..n][1..] == fs[1..][..n - 1];
  }

  lemma ConcatAssoc<T>(a: seq<T>, b: seq<T>, c: seq<T>)
    ensures a + (b + c) == (a + b) + c
  {
  }

  /**
    The replay deletes the tagged mails before the stopping point, and sends
    those plus the stopping mail when it got as far as `send()`.
  */
  lemma {:induction false} ReplayTaggedPrefix(fs: seq<Fact>)
    ensures Replay(fs).deleted == TaggedIds(fs[..StopIndex(fs)])
    ensures Replay(fs).sent == TaggedIds(fs[..StopIndex(fs)]) + StopSend(fs, StopIndex(fs))
    decreases |fs|
  {
    if |fs| == 0 || Halts(fs[0]) {
      assert fs[..0] == [];
    } else {
      var here := if fs[0].tagged then [fs[0].id] else [];
      var n := StopIndex(fs);
      ReplayTaggedPrefix(fs[1..]);
      StopPastFirst(fs);
      ConcatAssoc(here, TaggedIds(fs[1..][..n - 1]), StopSend(fs, n));
    }
  }

  /** The replay's outcome is decided by the mail at the stopping point. */
  lemma {:induction false} ReplayOutcome(fs: seq<Fact>)
    ensures var n := StopIndex(fs);
            Replay(fs).outcome ==
              if n == |fs| then Completed
              else match fs[n].headerError
                case Some(line) => Aborted(fs[n].id, MalformedHeaderLine(line))
                case None => Aborted(fs[n].id, SendFailure)
    decreases |fs|
  {
    if |fs| > 0 && !Halts(fs[0]) {
      ReplayOutcome(fs[1..]);
      assert StopIndex(fs) < |fs| ==> fs[StopIndex(fs)] == fs[1..][StopIndex(fs) - 1];
    }
  }

  /** Fetched ids are distinct (they come from one mailbox search). */
  ghost predicate DistinctIds(mails: seq<InboundMail>) {
    forall i, j :: 0 <= i < j < |mails| ==> mails[i].id != mails[j].id
  }

  ghost predicate DistinctFactIds(fs: seq<Fact>) {
    forall i, j :: 0 <= i < j < |fs| ==> fs[i].id != fs[j].id
  }

  /** With distinct ids, an id is among the tagged ones of a prefix exactly when its mail is tagged and in it. */
  lemma TaggedPrefixMember(fs: seq<Fact>, n: nat, i: nat)
    requires DistinctFactIds(fs) && n <= |fs| && i < |fs|
    ensures fs[i].id in TaggedIds(fs[..n]) <==> i < n && fs[i].tagged
  {
    var pre := fs[..n];
    TaggedIdsMembers(pre, fs[i].id);
    if fs[i].id in TaggedIds(pre) {
      var j :| 0 <= j < |pre| && pre[j].id == fs[i].id && pre[j].tagged;
      assert pre[j] == fs[j];
    }
    if i < n && fs[i].tagged {
      assert pre[i] == fs[i];
    }
  }

  /** In the replay, a mail reaches `send()` exactly when it is tagged and not past the stopping mail. */
  lemma ReplaySentIff(fs: seq<Fact>, i: nat)
    requires DistinctFactIds(fs) && i < |fs|
    ensures var n := StopIndex(fs);
            fs[i].id in Replay(fs).sent <==>
              fs[i].tagged && (i < n || (i == n && fs[i].headerError.None?))
  {
    ReplayTaggedPrefix(fs);
    TaggedPrefixMember(fs, StopIndex(fs), i);
  }

  /** In the replay, a mail is deleted exactly when it reached `send()` and the send succeeded. */
  lemma ReplayDeletedIff(fs: seq<Fact>, i: nat)
    requires DistinctFactIds(fs) && i < |fs|
    ensures fs[i].id in Replay(fs).deleted <==> fs[i].id in Replay(fs).sent && fs[i].sendOk
  {
    ReplayTaggedPrefix(fs);
    ReplaySentIff(fs, i);
    TaggedPrefixMember(fs, StopIndex(fs), i);
  }

  /**
    A mail is handed to `send()` exactly when it is tagged and not past the
    mail that ended the run, or is that mail and its header block was read.
  */
  lemma SentIffReached(cfg: Config, decode: string -> string, o: Outbox,
                       mails: seq<InboundMail>, oks: seq<bool>, i: nat)
    requires |oks| == |mails| && DistinctIds(mails) && i < |mails|
    ensures var fs := Facts(cfg, mails, oks);
            var n := StopIndex(fs);
            mails[i].id in Run(cfg, decode, o, mails, oks).sent <==>
              fs[i].tagged && (i < n || (i == n && fs[i].headerError.None?))
  {
    ReplaySentIff(Facts(cfg, mails, oks), i);
  }

  /** Delete only after a successful send: a mail is deleted exactly when it was sent and the send succeeded. */
  lemma DeletedIffSendSucceeded(cfg: Config, decode: string -> string, o: Outbox,
                                mails: seq<InboundMail>, oks: seq<bool>, i: nat)
    requires |oks| == |mails| && DistinctIds(mails) && i < |mails|
    ensures var r := Run(cfg, decode, o, mails, oks);
            mails[i].id in r.deleted <==> mails[i].id in r.sent && oks[i]
  {
    ReplayDeletedIff(Facts(cfg, mails, oks), i);
  }
}
