# mail-forwarder, modelled in Dafny

mail-forwarder is a PHP script (`run.php`) that forwards the tagged mails of
an IMAP mailbox through an SMTP account. It handles the fetched mails in order. A mail goes out only
when one of its `To` addresses carries an alias tag (`name+tag@host`). The
forwarded copy goes to `tag@<target domain>` and carries the original sender,
a few selected original headers and the original body. An allow-list of
senders can divert the copy to an abuse address under a marked subject. A
successful send deletes the source mail. A failed send ends the run.

This project models that core as pure functions and proves what it promises:

- `text.dfy` (`Text`) holds PHP's `trim`, `explode` on a one-character
  separator, `implode` with any separator string, and `strpos` for one
  character.
- `ordered_map.dfy` (`OrderedMap`) holds PHP's string-keyed array.
  - The array is an insertion-ordered map.
  - Assigning to an existing key overwrites the value in place.
  - `.=` on a missing key starts from the empty string.
- `header_parser.dfy` (`HeaderParser`) holds `parseHeaders`.
  - It is a left fold over the lines of the raw header block.
  - The module also gives a declarative description of the result: each
    name holds the value of its last header line, followed by the folded
    lines right after that line. Names appear in order of first occurrence.
  - The fold is proved equal to that description.
- `alias.dfy` (`Alias`) holds the tag extraction by the pattern
  `/^[^\+]+\+([^@]+)@/`, written as explicit scanning. It is proved sound and
  complete against the shape the pattern accepts.
- `header_filter.dfy` (`HeaderFilter`) holds the custom headers of the
  forwarded mail.
  - They are `X-Forwarded-From` and `X-Forwarded-For`.
  - After those come the parsed headers whose name is one of twelve listed
    names, MIME-decoded.
- `body.dfy` (`Body`) holds the HTML / plain-text body selection.
- `allow_list.dfy` (`AllowList`) holds the sender allow-list override.
- `delivery.dfy` (`Delivery`) holds one iteration of the loop (`ProcessMail`)
  and the loop itself (`Run`).
  - `Run` is proved equal to a replay of four facts per mail: its id,
    whether it is tagged, whether its header block parses, and the outcome
    of its send.
  - From that replay follow the run-level properties: which ids are sent,
    which are deleted, in what order, and why the run stops.

The mailbox and the SMTP server are not modelled:

- The fetched mails (the fields the loop reads) are an input.
- The outcome of each `send()` is an input sequence of booleans.
- `decodeMimeStr` is an uninterpreted function parameter `decode`.

## Model

| member | source | states |
|---|---|---|
| Text.Split | run.php:19 | `explode("\n", …)`: at least one piece, no piece contains the separator, and joining the pieces with the separator gives back the input |
| Text.SplitJoin | run.php:19 | splitting a join of separator-free parts gives back exactly those parts |
| Text.Join | run.php:85 | `implode(', ', …)`: no parts give the empty string; otherwise the result is as long as the parts together plus one separator per gap; `Text.SplitJoin` makes it the inverse of `explode` for a one-character separator |
| Text.JoinSingle | run.php:85 | `implode` of a single part is that part, for any separator |
| Text.JoinConcat | run.php:85 | `implode` of a concatenation is the two halves' implodes with exactly one separator between them, for any separator string such as ", "; with `Text.JoinSingle` this fixes the whole result |
| Text.Trim | run.php:19 | `trim`: the result is a slice of the input, neither end of it is PHP whitespace, and everything stripped on either side was whitespace |
| OrderedMap.Put | run.php:22 | `$headers[$name] = …`: the key then maps to the new value, every other key keeps its value, an existing key keeps its position and a new key is appended last, and keys stay distinct |
| OrderedMap.Append | run.php:24 | `$headers[$name] .= …`: the key maps to its old value (the empty string when missing) followed by the appended text, and nothing else changes |
| HeaderParser.HeaderLines | run.php:19 | `explode("\n", trim($header))`: at least one line, no line holds "\n", the lines joined by "\n" give back the trimmed block, and the first line never starts with a space or tab, because `trim` strips them |
| HeaderParser.ClassifyLine | run.php:20-21 | a line starting with space or tab is a continuation line; any other line with a ':' is a header whose name is the text before the first ':' and whose value is the trimmed rest; any other line (the empty line included) is one the function fails on |
| HeaderParser.ClassifyAll | run.php:19-21 | the block is readable exactly when every line is; otherwise the first unreadable line is reported |
| HeaderParser.Step | run.php:20-25 | one line: a header line sets its name to its value and makes it the open name; a continuation line extends the open name's value by exactly "\n" + line and leaves the keys unchanged when the open name is already present; no other key changes |
| HeaderParser.Fold | run.php:17-26 | the `foreach` as a left fold of `Step` from the empty array and `$name = ''`; its keys are distinct; values and key order are stated by `HeaderParser.FoldValue` and `HeaderParser.FoldKeys` |
| HeaderParser.ParseHeaders | run.php:15-28 | fails exactly when some line of the trimmed block is unreadable, naming such a line; on success the keys are distinct |
| HeaderParser.FoldValue | run.php:19-26 | each name's value is the value of its last header line followed by the folded continuation lines directly after it, so a later header of the same name overwrites an earlier one; a leading continuation goes to the key "" |
| HeaderParser.FoldKeys | run.php:19-26 | the keys are the header names in order of first occurrence, preceded by "" when the block opens with a continuation line |
| HeaderParser.NoLeadingContinuation | run.php:19-20 | a block `parseHeaders` can read opens with a header line, so its keys are exactly the header names and the key "" never arises from a leading continuation |
| HeaderParser.ParseHeadersMeaning | run.php:15-28 | for a readable block, the parsed map agrees with the declarative description on every key and on the key order |
| Alias.ExtractTag | run.php:72 | an extracted tag is non-empty and free of '@' |
| Alias.ExtractTagSound | run.php:72 | a tag is extracted only from an address of the form local + "+" + tag + "@" + rest, where local is non-empty and '+'-free and tag is non-empty and '@'-free |
| Alias.ExtractTagComplete | run.php:72 | every address of that form yields exactly that tag |
| Alias.ExtractTagNone | run.php:72 | no tag is extracted exactly when the address has no decomposition of that form |
| Alias.CollectTargets | run.php:71-76 | one forwarded recipient per recorded tag, at address tag + "@" + domain, and every recorded tag is non-empty and free of '@'; which recipient contributes each tag, under which display name and in which order is stated by `Alias.CollectTargetsSingle` and `Alias.CollectTargetsConcat` |
| Alias.CollectTargetsConcat | run.php:71-76 | recipients are handled one by one, so tags and forwarded recipients are collected in recipient order |
| Alias.CollectTargetsSingle | run.php:72-75 | a single recipient contributes its tag and its forwarded address exactly when it matches |
| Alias.NoTagsIffNoMatch | run.php:71-79 | no tag is recorded exactly when no `To` address matches the pattern |
| HeaderFilter.PassThrough | run.php:88-97 | only headers with one of the twelve listed names are emitted, and never more than were parsed |
| HeaderFilter.PassThroughLookup | run.php:88-97 | a name is emitted exactly when it is listed (case-sensitive, strict comparison) and parsed, and its value is then the decoding of the parsed value |
| HeaderFilter.PassThroughConcat | run.php:88-97 | filtering keeps the parse order of the headers |
| HeaderFilter.CustomHeaders | run.php:84-97 | the custom headers are `X-Forwarded-From` with the sender address, then `X-Forwarded-For` with the tags joined by ", ", then exactly the passed-through headers in parse order with decoded values |
| HeaderFilter.ForwardedHeaderValues | run.php:87-97 | for a readable header block, a listed name is forwarded with the decoding of its full folded value, and no unlisted name is forwarded |
| AllowList.Enforce | run.php:109-113 | an empty list, or a sender strictly equal to an entry, leaves subject and recipients unchanged; otherwise the subject is prefixed with "mail rejected: " and the recipients are exactly the abuse address |
| AllowList.MarkedIffRejected | run.php:109-113 | the subject changes exactly when the sender is rejected, and a rejected mail reaches the abuse address only |
| Body.SelectBody | run.php:99-107 | HTML mode is on exactly when the HTML part is truthy in PHP (not "" and not "0"); then Body is the HTML and AltBody the plain text, otherwise Body is the plain text and AltBody is "" |
| Body.PlainTextAlwaysSent | run.php:99-107 | the plain text always goes out, as Body or as AltBody |
| Delivery.ProcessMail | run.php:60-120 | an iteration skips exactly the mails without a tag; of the tagged mails it fails on exactly those whose header block cannot be parsed; of the rest it reports Sent or SendFailed as `send()` returns |
| Delivery.ComposedOutbox | run.php:61-113 | the message handed to `send()` is, field by field, the one composed from this mail and the configuration |
| Delivery.SentMessage | run.php:61-107 | the message handed to `send()` has the configured sender address, this mail's sender name, no reply-to, exactly the custom headers above, and this mail's message id, date and body |
| Delivery.SentRouting | run.php:109-113 | the message goes to the tagged recipients under the original subject, or to the abuse address alone under the marked subject when the sender is rejected |
| Delivery.NothingCarriesOver | run.php:61-63 | whatever an earlier iteration left in the mailer object, an iteration decides the same and sends the same message |
| Delivery.Run | run.php:60-121 | from any mailer state, the loop is the replay of each mail's id, tag, header-parse and send facts; it deletes exactly the tagged mails before the first mail that ends the run, in fetch order; it hands those to `send()`, then the stopping mail when its send failed; it completes exactly when no mail ends it, and otherwise aborts at that mail, naming the unreadable header line or the failed send |
| Delivery.ReplayTaggedPrefix | run.php:115-120 | on the facts alone, the loop deletes exactly the tagged mails before the stopping mail, in fetch order, and hands those to `send()` followed by the stopping mail when its header block was read |
| Delivery.ReplayOutcome | run.php:115-120 | on the facts alone, the loop completes exactly when no mail stops it, and otherwise aborts at the first stopping mail with its cause |
| Delivery.ReplaySentIff | run.php:77-79 | with distinct ids, on the facts alone: a mail reaches `send()` exactly when it is tagged and not past the stopping mail, and the stopping mail only when its header block was read |
| Delivery.ReplayDeletedIff | run.php:115-116 | with distinct ids, on the facts alone: a mail is deleted exactly when it reached `send()` and the send succeeded |
| Delivery.StopIndex | run.php:115-120 | the first mail that ends the run: every mail before it goes on, and the one at the index stops the run |
| Delivery.TaggedIdsMembers | run.php:77-79 | an id is among the tagged ids exactly when some tagged mail carries it |
| Delivery.SentIffReached | run.php:77-79 | with distinct ids: a mail is handed to `send()` exactly when it is tagged and either comes before the stopping mail, or is the stopping mail and its headers were read; so no later mail is ever sent |
| Delivery.DeletedIffSendSucceeded | run.php:115-120 | with distinct ids: a mail is deleted exactly when it was handed to `send()` and the send succeeded |

## Left out

- IMAP: connecting, searching, fetching, deleting, expunging and disconnecting (run.php:32-48, 67, 116, 123) are network I/O. The fetched mails are an input, and a deletion is recorded as an id in `RunResult.deleted`.
- SMTP: PHPMailer configuration, `send()` and `smtpClose()` (run.php:50-58, 115, 124) are library and network calls. Each send outcome is an input boolean. The observable result is the list of ids handed to `send()`.
- PHPMailer internals are foreign code: the dedup and validation in `addAddress`, and the trimming and newline checks in `addCustomHeader`. The `Outbox` record holds the arguments of the setter calls, not PHPMailer's processed state.
- `decodeMimeStr` (run.php:94) is library MIME decoding. It is the uninterpreted parameter `decode`.
- Loading `config.json` (run.php:30) is file I/O. The configuration is a `Config` record. A missing `allowedSenderAddresses` reads as null, which is falsy, and is modelled as the empty list.
- The `echo` and `exit` diagnostics (run.php:46-47, 118-119, 126) are not modelled. Only the run's outcome is kept: completed, or aborted at a given mail for a given reason.
- PHP coerces numeric-string array keys (a header named "123") to integers. Here keys stay strings. This changes no lookup the loop performs, because every passed-through name is non-numeric.
- HeaderParser.ParseHeaders: the PHP function does not return on a line that is neither a continuation nor contains a ':'. The empty line is one such line. `list()` leaves the value null, and `trim(null)` under `strict_types=1` raises a TypeError that ends the script. The model returns a failure naming that line, and the loop aborts there before sending that mail. The TypeError message is not modelled. A continuation line before any header line would not be an error in PHP (only a warning) and would create the key "". The fold models that case, but `parseHeaders` never reaches it: `trim` strips leading spaces and tabs, so the first line of the block is never a continuation (`HeaderParser.NoLeadingContinuation`).
- run.php has no rotation over several target accounts with cool-down pauses, no pattern or case-insensitive allow-list entries, and no Reply-To synthesis, so the model has none of them either.
- PHP strings are byte strings, while the model uses `seq<char>`. No behaviour changes, because every character the code tests is ASCII: space, tab, ':', "\n", '+', '@' and the `trim` set. Multi-byte characters pass through as whole units instead of byte by byte.
- Delivery.SentIffReached and Delivery.DeletedIffSendSucceeded assume distinct fetched ids. The ids come from one mailbox search and are distinct there. With repeated ids, membership of an id no longer identifies one mail.
