/**
 * `POST /api/test-send` (app/api/test-send/route.ts): the diagnostic variant of
 * the send handler. It normalises the recipient to `+`-form before sending and
 * storing, and reports a failed insert as a warning next to a successful send.
 *
 * As in `SendRoute`, the carrier result `sms` and the insert outcome `db` are
 * parameters, and the issued carrier call and inserted row are returned. A body
 * that `request.json()` cannot parse arrives with the exception's `message` and
 * `stack`, which the handler's `catch` echoes back.
 */
module TestSendRoute {
  import opened Types
  import opened JsString
  import opened HomePage
  import SendRoute

  /**
   * The recipient normalisation written inline in the handler, step by step; it
   * computes exactly what the page's storage formatter does.
   */
  method FormatRecipient(to: string) returns (formattedTo: string)
    ensures formattedTo == FormatForStorage(to)
    ensures StartsWithPlus(formattedTo)
  {
    formattedTo := Trim(to);
    if !StartsWithPlus(formattedTo) {
      formattedTo := DropLeadingOne(formattedTo);
      formattedTo := "+1" + DigitsOnly(formattedTo);
    }
  }

  /** The first row the insert's `.select()` returned, if there is one. */
  function FirstInserted(inserted: Option<seq<Message>>): (row: Option<Message>)
    ensures row.Some? <==> inserted.Some? && |inserted.value| > 0
    ensures row.Some? ==> row.value == inserted.value[0]
  {
    if inserted.Some? && |inserted.value| > 0 then Some(inserted.value[0]) else None
  }

  const NotSavedWarning := "Message sent but not saved to database"

  /** The request body: the parsed fields, or the exception `request.json()` threw. */
  datatype Request =
    | Parsed(fields: SendRoute.SendRequest)
    | Unparseable(message: string, stack: Option<string>)

  /**
   * The response bodies of the handler. In `Crashed`, `exceptionMessage` is the
   * JSON body's `message` field.
   */
  datatype Body =
    | Failure(error: string)
    | Crashed(error: string, exceptionMessage: string, stack: Option<string>)
    | SendFailure(error: string, details: SmsResult)
    | SentNotSaved(success: bool, sid: Option<string>, warning: string, dbError: string)
    | SentSaved(success: bool, sid: Option<string>, message: Option<Message>)

  /**
   * The `POST` handler. Missing fields give 400 and nothing is sent; the recipient
   * is normalised and the text sent to it; a failed send gives 500 with the error
   * and the carrier result, and nothing is stored; after a successful send the
   * row for the normalised number is inserted and the answer is success either
   * way: with a warning when the insert failed, with the stored row otherwise.
   */
  method Post(request: Request, operator: string, sms: SmsResult, db: InsertOutcome)
    returns (response: Response<Body>, sent: Option<SmsCall>, stored: Option<NewMessage>)
    ensures request.Unparseable? ==>
      && response == Response(500, Crashed("Internal server error", request.message, request.stack))
      && sent.None? && stored.None?
    ensures request.Parsed? && !SendRoute.HasRequiredFields(request.fields) ==>
      && response == Response(400, Failure("Missing required fields: to, message"))
      && sent.None? && stored.None?
    ensures request.Parsed? && SendRoute.HasRequiredFields(request.fields) ==>
      sent == Some(SmsCall(FormatForStorage(request.fields.to.value), request.fields.message.value))
    ensures request.Parsed? && SendRoute.HasRequiredFields(request.fields) && !sms.success ==>
      response == Response(500, SendFailure(SendRoute.SendErrorText(sms.error), sms)) && stored.None?
    ensures request.Parsed? && SendRoute.HasRequiredFields(request.fields) && sms.success ==>
      stored == Some(OutboundRow(operator, FormatForStorage(request.fields.to.value),
                                 request.fields.message.value, sms.sid))
    ensures request.Parsed? && SendRoute.HasRequiredFields(request.fields) && sms.success && db.InsertError? ==>
      response == Response(200, SentNotSaved(true, sms.sid, NotSavedWarning, db.message))
    ensures request.Parsed? && SendRoute.HasRequiredFields(request.fields) && sms.success && db.Inserted? ==>
      response == Response(200, SentSaved(true, sms.sid, FirstInserted(db.inserted)))
    ensures response.status == 200 <==> sent.Some? && sms.success
    ensures stored.Some? ==> StartsWithPlus(stored.value.to_number)
  {
    if request.Unparseable? {
      return Response(500, Crashed("Internal server error", request.message, request.stack)), None, None;
    }
    var to := request.fields.to;
    var message := request.fields.message;
    if !Truthy(to) || !Truthy(message) {
      return Response(400, Failure("Missing required fields: to, message")), None, None;
    }
    var formattedTo := FormatRecipient(to.value);
    sent := Some(SmsCall(formattedTo, message.value));
    if !sms.success {
      return Response(500, SendFailure(SendRoute.SendErrorText(sms.error), sms)), sent, None;
    }
    stored := Some(NewMessage(operator, formattedTo, message.value, Outbound, "sent", sms.sid));
    match db
    case InsertError(dbMessage) =>
      response := Response(200, SentNotSaved(true, sms.sid, NotSavedWarning, dbMessage));
    case Inserted(insertedData) =>
      response := Response(200, SentSaved(true, sms.sid, FirstInserted(insertedData)));
  }
}
