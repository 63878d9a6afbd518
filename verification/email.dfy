/** The mail service of sendEmail.js and the options objects the order handlers hand to it. */
module Mail {
  /** An options object, as its keys and string values. */
  type Options = map<string, string>

  /** `sendEmail(options)`: the message is addressed to `options.recipient`, so without that
      key it has no recipient, the Gmail transport refuses it and `sendEmail` throws.
      `accepted` is the SMTP server's answer to a message that has a recipient. */
  function Delivered(options: Options, accepted: bool): (r: bool)
    ensures r ==> "recipient" in options && options["recipient"] != []
    ensures "recipient" in options && options["recipient"] != [] ==> r == accepted
  {
    "recipient" in options && options["recipient"] != [] && accepted
  }

  /** The options `confirmOrder` builds, as written: the address is stored under the key
      `recepient`, which `sendEmail` never reads. */
  function ConfirmOptionsAsWritten(email: string): (r: Options)
    ensures "recipient" !in r
    ensures "recepient" in r && r["recepient"] == email
  {
    map["recepient" := email, "subject" := "Order successfully placed"]
  }

  /** The options `confirmOrder` is evidently meant to build, keyed like those of
      `cancelOrder` and `deleteOrder`. */
  function ConfirmOptions(email: string): (r: Options)
    ensures "recipient" in r && r["recipient"] == email
  {
    map["recipient" := email, "subject" := "Order successfully placed"]
  }

  /** The options of `cancelOrder` (subject "Order successfully cancelled") and of
      `deleteOrder` (subject "Order deletion notification"). */
  function NoticeOptions(email: string, subject: string): (r: Options)
    ensures "recipient" in r && r["recipient"] == email
  {
    map["recipient" := email, "subject" := subject]
  }

  /** As written, the confirmation email is never delivered, whatever the address and
      whatever the mail server would answer. */
  lemma ConfirmAsWrittenNeverDelivered(email: string, accepted: bool)
    ensures !Delivered(ConfirmOptionsAsWritten(email), accepted)
  {
  }

  /** With the key spelled `recipient`, the confirmation email goes out exactly when the
      address is not empty and the mail server accepts it, as the cancel and delete notices
      do. */
  lemma ConfirmDeliveredAsNotices(email: string, accepted: bool)
    ensures Delivered(ConfirmOptions(email), accepted) <==> email != [] && accepted
    ensures Delivered(ConfirmOptions(email), accepted)
         == Delivered(NoticeOptions(email, "Order successfully cancelled"), accepted)
  {
  }
}
