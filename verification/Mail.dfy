/**
 The message a transport sends, the submission row that persists it, and the
 conversions between the two: one per ingress on the way in, one in the retry
 worker on the way out. Go's nil and empty slices are the same value here.
 */
module Mail {
  import opened Basics
  import opened Clock

  /** A submission's UUID, as the 128-bit number it is. Ids are only ever compared. */
  type Id = nat

  datatype Header = Header(name: string, value: string)

  datatype Attachment = Attachment(filename: string, contentType: string, data: seq<bv8>)

  datatype Message = Message(
    from: string,
    to: seq<string>,
    replyTo: string,
    subject: string,
    bodyText: string,
    bodyHTML: string,
    submissionID: Id,
    fields: map<string, seq<string>>,
    attachments: seq<Attachment>,
    headers: seq<Header>)

  datatype Status = Sending | Sent | Queued | Failed | Suppressed

  /** One row of the submission log. Times are Unix seconds, as stored. */
  datatype Submission = Submission(
    id: Id,
    endpoint: string,
    transport: string,
    from: string,
    toAddrs: seq<string>,
    replyTo: string,
    subject: string,
    bodyText: string,
    bodyHTML: string,
    fields: map<string, seq<string>>,
    attachments: seq<Attachment>,
    headers: seq<Header>,
    clientIP: string,
    status: Status,
    messageID: string,
    lastError: string,
    createdAt: int,
    sentAt: Option<int>)

  /** Where a submission came from, with the configuration that shapes its row. */
  datatype Ingress =
    | Smtp(listener: string, transport: string, remoteIP: string)
    | Http(path: string, transport: string, logFailed: bool, clientIP: string)

  /** Whether the pre-send row may enter the retry queue by way of `Enqueue`. */
  predicate QueueEligible(via: Ingress) {
    via.Smtp? || via.logFailed
  }

  /** The pre-send row. SMTP has no form fields and no attachments to store, HTTP
      has no passthrough headers, and an HTTP endpoint that does not log failed
      submissions stores metadata only. */
  function PreSendRow(via: Ingress, id: Id, msg: Message, now: int): (row: Submission)
    ensures row.id == id && row.status == Sending
  {
    match via
    case Smtp(listener, transport, ip) =>
      Submission(id, listener, transport, msg.from, msg.to, msg.replyTo, msg.subject,
                 msg.bodyText, msg.bodyHTML, map[], [], msg.headers, ip,
                 Sending, "", "", Unix(now), None)
    case Http(path, transport, logFailed, ip) =>
      if logFailed then
        Submission(id, path, transport, msg.from, msg.to, msg.replyTo, msg.subject,
                   msg.bodyText, msg.bodyHTML, msg.fields, msg.attachments, [], ip,
                   Sending, "", "", Unix(now), None)
      else
        Submission(id, path, transport, "", [], "", "", "", "", map[], [], [], "",
                   Sending, "", "", Unix(now), None)
  }

  /** The shape each ingress gives the messages it builds. */
  predicate IngressShape(via: Ingress, id: Id, msg: Message) {
    && msg.submissionID == id
    && (via.Smtp? ==> msg.fields == map[] && msg.attachments == [])
    && (via.Http? ==> msg.headers == [])
  }

  /** The message the retry worker rebuilds from a claimed row. */
  function Rebuild(row: Submission): (msg: Message) {
    Message(row.from, row.toAddrs, row.replyTo, row.subject, row.bodyText, row.bodyHTML,
            row.id, row.fields, row.attachments, row.headers)
  }

  /** Storing a queue-eligible submission loses nothing the worker needs exactly
      when the message has the shape its ingress builds. */
  lemma RebuildInvertsStore(via: Ingress, id: Id, msg: Message, now: int)
    requires QueueEligible(via)
    ensures Rebuild(PreSendRow(via, id, msg, now)) == msg <==> IngressShape(via, id, msg)
  {
  }
}
