/**
 * The message container: an id, a subject and an attachment list that only
 * ever grows by appending (gmail_attachment_extractor/message.py), with the
 * attachment record it holds (gmail_attachment_extractor/attachment.py).
 */
module Messages {

  /**
   * An attachment: its file name and its content. The content is the part's
   * `data` text exactly as the mail service delivers it; decoding it is not
   * part of this model.
   */
  datatype Attachment = Attachment(filename: string, content: string)

  class Message {
    var id: string
    var subject: string
    var attachments: seq<Attachment>

    /** A new message carries the given id and subject and no attachments. */
    constructor (id: string, subject: string)
      ensures this.id == id && this.subject == subject
      ensures attachments == []
    {
      this.id := id;
      this.subject := subject;
      attachments := [];
    }

    /**
     * Appends one attachment: the list grows by exactly one, the old entries
     * stay where they were, and id and subject are untouched.
     */
    method AddAttachment(attachment: Attachment)
      modifies this`attachments
      ensures attachments == old(attachments) + [attachment]
      ensures |attachments| == |old(attachments)| + 1
      ensures attachments[..|old(attachments)|] == old(attachments)
      ensures id == old(id) && subject == old(subject)
    {
      attachments := attachments + [attachment];
    }
  }
}
