/**
 * The records the messaging console passes around: a stored SMS row, the derived
 * conversation summary, the result shape of the carrier client and the outcomes
 * of the store calls. Timestamps are integers (larger is later).
 */
module Types {

  datatype Option<+T> = None | Some(value: T)

  /** A string parameter is "truthy" in JavaScript when it is present and non-empty. */
  predicate Truthy(v: Option<string>) {
    v.Some? && v.value != ""
  }

  datatype Direction = Inbound | Outbound

  /** One row of the `messages` table. */
  datatype Message = Message(
    id: string,
    from_number: string,
    to_number: string,
    body: string,
    direction: Direction,
    status: string,
    created_at: int,
    twilio_sid: Option<string>)

  /** The insert payload of a new row; the store assigns `id` and `created_at`. */
  datatype NewMessage = NewMessage(
    from_number: string,
    to_number: string,
    body: string,
    direction: Direction,
    status: string,
    twilio_sid: Option<string>)

  /** A conversation summary, derived from the message log and never stored. */
  datatype Conversation = Conversation(
    phone_number: string,
    last_message: string,
    last_message_at: int,
    unread_count: int)

  function CreatedAt(m: Message): int { m.created_at }

  function LastMessageAt(c: Conversation): int { c.last_message_at }

  /** The `{success, sid, error}` value the carrier client returns instead of throwing. */
  datatype SmsResult = SmsResult(success: bool, sid: Option<string>, error: Option<string>)

  /** The request handed to the carrier client: recipient and text. */
  datatype SmsCall = SmsCall(to: string, body: string)

  /** The outcome of a read of the whole `messages` table. */
  datatype StoreOutcome = Rows(rows: seq<Message>) | StoreError(message: string)

  /** The outcome of an insert; `inserted` is what a following `.select()` returns. */
  datatype InsertOutcome = Inserted(inserted: Option<seq<Message>>) | InsertError(message: string)

  /** A JSON response: HTTP status and body. */
  datatype Response<+B> = Response(status: int, body: B)

  /** The row both send handlers store for a message the carrier accepted. */
  function OutboundRow(operator: string, to: string, body: string, sid: Option<string>): NewMessage {
    NewMessage(operator, to, body, Outbound, "sent", sid)
  }
}
