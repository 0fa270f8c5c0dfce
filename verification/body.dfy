/**
  Body selection, run.php lines 99-107. `if ($mail->textHtml)` is PHP
  truthiness: the empty string and the string "0" count as no HTML part.
*/
module Body {

  /** The truth value PHP gives a string in a condition. */
  predicate PhpTruthy(s: string) {
    s != "" && s != "0"
  }

  /** `isHTML`, `Body` and `AltBody` of the outgoing mail. */
  datatype BodyParts = BodyParts(isHtml: bool, body: string, altBody: string)

  function SelectBody(textHtml: string, textPlain: string): (r: BodyParts)
    ensures r.isHtml <==> PhpTruthy(textHtml)
    ensures r.isHtml ==> r.body == textHtml && r.altBody == textPlain
    ensures !r.isHtml ==> r.body == textPlain && r.altBody == ""
  {
    if PhpTruthy(textHtml)
    then BodyParts(true, textHtml, textPlain)
    else BodyParts(false, textPlain, "")
  }

  /** Whatever the HTML part, the plain text always goes out, as body or as alternative body. */
  lemma PlainTextAlwaysSent(textHtml: string, textPlain: string)
    ensures SelectBody(textHtml, textPlain).body == textPlain
            || SelectBody(textHtml, textPlain).altBody == textPlain
  {
  }
}
