/**
 * `POST /api/messages/send` (app/api/messages/send/route.ts): validates the
 * request, hands the text to the carrier client, and records what was sent.
 *
 * The carrier client and the store are collaborators whose outcomes the handler
 * only inspects, so they are parameters: `sms` is what `sendSMS` returns and
 * `dbError` what the insert reports. The handler's effects are returned as
 * values: the carrier call it issued (`sent`) and the row it inserted (`stored`).
 * An absent `request` stands for a body that `request.json()` could not parse.
 */
module SendRoute {
  import opened Types

  /** The JSON body's two fields; `None` is a field that is absent or `null`. */
  datatype SendRequest = SendRequest(to: Option<string>, message: Option<string>)

  /** `!to || !message` is false: both fields are present and non-empty. */
  predicate HasRequiredFields(request: SendRequest) {
    Truthy(request.to) && Truthy(request.message)
  }

  /** `result.error || 'Failed to send message'`. */
  function SendErrorText(error: Option<string>): (text: string)
    ensures text != ""
    ensures Truthy(error) ==> text == error.value
    ensures !Truthy(error) ==> text == "Failed to send message"
  {
    if Truthy(error) then error.value else "Failed to send message"
  }

  /** The response body: an error, or success with the carrier's message id. */
  datatype Body = Failure(error: string) | Sent(success: bool, sid: Option<string>)

  /**
   * The `POST` handler. Missing fields give 400 and nothing is sent; a failed send
   * gives 500 with the carrier's error and nothing is stored; a successful send
   * stores an outbound row for the raw `to` and answers success with the sid,
   * whatever the insert reports.
   */
  method Post(request: Option<SendRequest>, operator: string, sms: SmsResult, dbError: Option<string>)
    returns (response: Response<Body>, sent: Option<SmsCall>, stored: Option<NewMessage>)
    ensures request.None? ==>
      response == Response(500, Failure("Internal server error")) && sent.None? && stored.None?
    ensures request.Some? && !HasRequiredFields(request.value) ==>
      && response == Response(400, Failure("Missing required fields: to, message"))
      && sent.None? && stored.None?
    ensures request.Some? && HasRequiredFields(request.value) ==>
      sent == Some(SmsCall(request.value.to.value, request.value.message.value))
    ensures request.Some? && HasRequiredFields(request.value) && !sms.success ==>
      response == Response(500, Failure(SendErrorText(sms.error))) && stored.None?
    ensures request.Some? && HasRequiredFields(request.value) && sms.success ==>
      && response == Response(200, Sent(true, sms.sid))
      && stored == Some(OutboundRow(operator, request.value.to.value, request.value.message.value, sms.sid))
    ensures response.status == 200 <==> sent.Some? && sms.success
    ensures stored.Some? ==> sent.Some? && sms.success
  {
    if request.None? {
      return Response(500, Failure("Internal server error")), None, None;
    }
    var to := request.value.to;
    var message := request.value.message;
    if !Truthy(to) || !Truthy(message) {
      return Response(400, Failure("Missing required fields: to, message")), None, None;
    }
    sent := Some(SmsCall(to.value, message.value));
    if !sms.success {
      return Response(500, Failure(SendErrorText(sms.error))), sent, None;
    }
    stored := Some(NewMessage(operator, to.value, message.value, Outbound, "sent", sms.sid));
    // A failed insert is only logged: the message has been sent.
    response := Response(200, Sent(true, sms.sid));
  }
}
