/**
  The payment server: the ordered validation of a create-payment-intent
  request, the parameters it hands to the payment processor, and the
  webhook's dispatch on the event type. The processor itself (intent
  creation, signature checking) is outside the model: what it answers is
  an input here.
*/
module PaymentServer {
  import opened Wrappers
  import opened JsStrings

  /** `plan` in the request body; a missing field is None. */
  datatype PlanData = PlanData(name: Option<string>, days: Option<int>)

  /** The JSON body of `POST /api/create-payment-intent`; a missing or null field is None. */
  datatype PaymentData = PaymentData(
    amount: Option<real>,
    currency: Option<string>,
    plan: Option<PlanData>,
    passengers: Option<int>,
    date: Option<string>)

  /** The currency codes the server accepts, in upper case. */
  const SupportedCurrencies: set<string> := {"USD", "BRL", "EUR"}

  // Each check of validatePaymentData, stated as the condition that passes it.

  predicate AmountOk(d: PaymentData) { d.amount.Some? && d.amount.value > 0.0 }

  predicate CurrencyOk(d: PaymentData) {
    d.currency.Some? && d.currency.value != "" && ToUpperCase(d.currency.value) in SupportedCurrencies
  }

  predicate PlanOk(d: PaymentData) {
    && d.plan.Some?
    && d.plan.value.name.Some? && d.plan.value.name.value != ""
    && d.plan.value.days.Some? && d.plan.value.days.value != 0
  }

  predicate PassengersOk(d: PaymentData) { d.passengers.Some? && d.passengers.value > 0 }

  predicate DateOk(d: PaymentData) { d.date.Some? && d.date.value != "" }

  /** `validatePaymentData` either returns true or throws with a message. */
  datatype Verdict = Accepted | Rejected(message: string)

  /** The checks run in a fixed order and the first one that fails names the error. */
  function ValidatePaymentData(d: PaymentData): (v: Verdict)
    ensures v.Accepted? <==> AmountOk(d) && CurrencyOk(d) && PlanOk(d) && PassengersOk(d) && DateOk(d)
    ensures v == Rejected("Invalid amount") <==> !AmountOk(d)
    ensures v == Rejected("Invalid currency") <==> AmountOk(d) && !CurrencyOk(d)
    ensures v == Rejected("Invalid plan data") <==> AmountOk(d) && CurrencyOk(d) && !PlanOk(d)
    ensures v == Rejected("Invalid passenger count") <==>
      AmountOk(d) && CurrencyOk(d) && PlanOk(d) && !PassengersOk(d)
    ensures v == Rejected("Invalid date") <==>
      AmountOk(d) && CurrencyOk(d) && PlanOk(d) && PassengersOk(d) && !DateOk(d)
  {
    if d.amount.None? || d.amount.value <= 0.0 then Rejected("Invalid amount")
    else if d.currency.None? || d.currency.value == "" || ToUpperCase(d.currency.value) !in SupportedCurrencies then
      Rejected("Invalid currency")
    else if d.plan.None? || d.plan.value.name.None? || d.plan.value.name.value == ""
         || d.plan.value.days.None? || d.plan.value.days.value == 0 then
      Rejected("Invalid plan data")
    else if d.passengers.None? || d.passengers.value <= 0 then Rejected("Invalid passenger count")
    else if d.date.None? || d.date.value == "" then Rejected("Invalid date")
    else Accepted
  }

  /** The currency check ignores case: a code passes exactly when its lower-case form is a supported one. */
  lemma CurrencyCheckIgnoresCase(c: string)
    ensures ToUpperCase(c) in SupportedCurrencies <==> ToLowerCase(c) in {"usd", "brl", "eur"}
  {
    var u, l := ToUpperCase(c), ToLowerCase(c);
    CodeCases();
    LowerOfUpper(c);
    UpperOfLower(c);
    assert ToLowerCase(u) == l && ToUpperCase(l) == u;
  }

  /** The supported codes and their lower-case forms map to each other. */
  lemma CodeCases()
    ensures ToLowerCase("USD") == "usd" && ToLowerCase("BRL") == "brl" && ToLowerCase("EUR") == "eur"
    ensures ToUpperCase("usd") == "USD" && ToUpperCase("brl") == "BRL" && ToUpperCase("eur") == "EUR"
    ensures ToUpperCase("USD") == "USD" && ToUpperCase("BRL") == "BRL" && ToUpperCase("EUR") == "EUR"
  {
    assert ToUpperCase("USD") == [UpperChar('U'), UpperChar('S'), UpperChar('D')];
    assert ToUpperCase("BRL") == [UpperChar('B'), UpperChar('R'), UpperChar('L')];
    assert ToUpperCase("EUR") == [UpperChar('E'), UpperChar('U'), UpperChar('R')];
    assert ToLowerCase("USD") == [LowerChar('U'), LowerChar('S'), LowerChar('D')];
    assert ToLowerCase("BRL") == [LowerChar('B'), LowerChar('R'), LowerChar('L')];
    assert ToLowerCase("EUR") == [LowerChar('E'), LowerChar('U'), LowerChar('R')];
    assert ToUpperCase("usd") == [UpperChar('u'), UpperChar('s'), UpperChar('d')];
    assert ToUpperCase("brl") == [UpperChar('b'), UpperChar('r'), UpperChar('l')];
    assert ToUpperCase("eur") == [UpperChar('e'), UpperChar('u'), UpperChar('r')];
  }

  /** A plan whose days is 0 is refused, but a negative number of days passes the check. */
  lemma PlanDaysCheckIsTruthiness(d: PaymentData)
    requires AmountOk(d) && CurrencyOk(d) && d.plan.Some?
    requires d.plan.value.name.Some? && d.plan.value.name.value != ""
    ensures d.plan.value.days == Some(0) ==> ValidatePaymentData(d) == Rejected("Invalid plan data")
    ensures d.plan.value.days.Some? && d.plan.value.days.value < 0 ==>
      ValidatePaymentData(d) != Rejected("Invalid plan data")
  {
  }

  /** `Math.round(amount * 100)` on the exact amount: the nearest cent, halves rounded up. */
  function Cents(amount: real): (c: int)
    ensures c as real - 0.5 <= amount * 100.0 < c as real + 0.5
  {
    (amount * 100.0 + 0.5).Floor
  }

  /** A whole-dollar amount becomes exactly a hundred cents per dollar. */
  lemma WholeDollarsToCents(n: int)
    ensures Cents(n as real) == 100 * n
  {
  }

  /** The parameters handed to `paymentIntents.create`. */
  datatype IntentParams = IntentParams(amountCents: int, currency: string, metadata: map<string, string>)

  /** What the payment processor answers to an intent creation. */
  datatype ProcessorReply = Created(clientSecret: string, id: string) | ProcessorError(message: string)

  /** The response of the endpoint. */
  datatype Response = IntentCreated(clientSecret: string, paymentIntentId: string) | BadRequest(error: string)

  /** The endpoint's effect: the intent request it sent, if any, and its response. */
  datatype CreateOutcome = CreateOutcome(sent: Option<IntentParams>, response: Response)

  /** The metadata attached to the intent: days and passengers as strings, and the service tag. */
  function Metadata(name: string, days: int, passengers: int, date: string): (m: map<string, string>)
    ensures m.Keys == {"plan", "days", "passengers", "date", "service"}
    ensures m["service"] == "vpo-guidance" && m["plan"] == name && m["date"] == date
    ensures ParseInt(m["days"]) == Some(days) && ParseInt(m["passengers"]) == Some(passengers)
  {
    IntToStringRoundTrip(days);
    IntToStringRoundTrip(passengers);
    map["plan" := name, "days" := IntToString(days), "passengers" := IntToString(passengers),
        "date" := date, "service" := "vpo-guidance"]
  }

  /** `error.message || 'Failed to create payment intent'` */
  function ErrorText(message: string): (t: string)
    ensures t != ""
    ensures message != "" ==> t == message
    ensures message == "" ==> t == "Failed to create payment intent"
  {
    if message != "" then message else "Failed to create payment intent"
  }

  /**
    The create-payment-intent handler. `reply` is what the processor answers
    if it is asked; a request that fails validation never reaches it.
  */
  function CreatePaymentIntent(d: PaymentData, reply: ProcessorReply): (o: CreateOutcome)
    ensures o.sent.Some? <==> ValidatePaymentData(d).Accepted?
    ensures ValidatePaymentData(d).Rejected? ==> o.response == BadRequest(ValidatePaymentData(d).message)
    ensures o.sent.Some? ==>
      && o.sent.value.metadata.Keys == {"plan", "days", "passengers", "date", "service"}
      && o.sent.value.amountCents == Cents(d.amount.value)
      && ToLowerCase(o.sent.value.currency) == o.sent.value.currency
      && o.sent.value.currency in {"usd", "brl", "eur"}
      && o.sent.value.metadata["service"] == "vpo-guidance"
      && ParseInt(o.sent.value.metadata["days"]) == d.plan.value.days
      && ParseInt(o.sent.value.metadata["passengers"]) == d.passengers
    ensures o.sent.Some? ==>
      && o.sent.value.currency == ToLowerCase(d.currency.value)
      && o.sent.value.metadata ==
           Metadata(d.plan.value.name.value, d.plan.value.days.value, d.passengers.value, d.date.value)
      && o.sent.value.metadata["plan"] == d.plan.value.name.value
      && o.sent.value.metadata["date"] == d.date.value
    ensures o.response.IntentCreated? <==> o.sent.Some? && reply.Created?
    ensures o.sent.Some? && reply.Created? ==> o.response == IntentCreated(reply.clientSecret, reply.id)
    ensures o.sent.Some? && reply.ProcessorError? ==> o.response == BadRequest(ErrorText(reply.message))
  {
    match ValidatePaymentData(d)
    case Rejected(message) => CreateOutcome(None, BadRequest(ErrorText(message)))
    case Accepted =>
      var currency := d.currency.value;
      CurrencyCheckIgnoresCase(currency);
      LowerIsIdempotent(currency);
      var params := IntentParams(
        Cents(d.amount.value),
        ToLowerCase(currency),
        Metadata(d.plan.value.name.value, d.plan.value.days.value, d.passengers.value, d.date.value));
      match reply
      case Created(secret, id) => CreateOutcome(Some(params), IntentCreated(secret, id))
      case ProcessorError(message) => CreateOutcome(Some(params), BadRequest(ErrorText(message)))
  }

  lemma LowerIsIdempotent(s: string)
    ensures ToLowerCase(ToLowerCase(s)) == ToLowerCase(s)
  {
  }

  /** What the signature check (`webhooks.constructEvent`) gave: the event type or an error message. */
  datatype Verification = Verified(eventType: string) | SignatureError(message: string)

  /** Which business handler the webhook ran. */
  datatype Dispatch = NotDispatched | SucceededHandler | FailedHandler | Unhandled

  /** How a business handler ended: its own try/catch logs any error. */
  datatype HandlerOutcome = Completed | ErrorLogged

  datatype WebhookBody = WebhookErrorText(text: string) | Received(received: bool)

  datatype WebhookReply = WebhookReply(status: int, body: WebhookBody, dispatched: Dispatch, handled: Option<HandlerOutcome>)

  /** `handleSuccessfulPayment` / `handleFailedPayment`: an error inside is caught and logged. */
  function RunHandler(faults: bool): (h: HandlerOutcome)
    ensures h == ErrorLogged <==> faults
  {
    if faults then ErrorLogged else Completed
  }

  /**
    The webhook route. `handlerFaults` says whether the business handler it
    dispatches to raises an error internally.
  */
  function HandleWebhook(v: Verification, handlerFaults: bool): (r: WebhookReply)
    ensures v.SignatureError? ==>
      r.status == 400 && r.body == WebhookErrorText("Webhook Error: " + v.message) && r.dispatched == NotDispatched
    ensures v.Verified? ==> r.status == 200 && r.body == Received(true)
    ensures v.Verified? && v.eventType == "payment_intent.succeeded" ==> r.dispatched == SucceededHandler
    ensures v.Verified? && v.eventType == "payment_intent.payment_failed" ==> r.dispatched == FailedHandler
    ensures v.Verified? && v.eventType !in {"payment_intent.succeeded", "payment_intent.payment_failed"} ==>
      r.dispatched == Unhandled && r.handled == None
    ensures r.handled.Some? <==>
      v.Verified? && v.eventType in {"payment_intent.succeeded", "payment_intent.payment_failed"}
    ensures r.handled.Some? ==> (r.handled.value == ErrorLogged <==> handlerFaults)
  {
    match v
    case SignatureError(message) => WebhookReply(400, WebhookErrorText("Webhook Error: " + message), NotDispatched, None)
    case Verified(eventType) =>
      if eventType == "payment_intent.succeeded" then
        WebhookReply(200, Received(true), SucceededHandler, Some(RunHandler(handlerFaults)))
      else if eventType == "payment_intent.payment_failed" then
        WebhookReply(200, Received(true), FailedHandler, Some(RunHandler(handlerFaults)))
      else
        WebhookReply(200, Received(true), Unhandled, None)
  }

  /** A fault inside a business handler never changes the webhook's status, body or dispatch. */
  lemma HandlerFaultsDoNotReachResponse(v: Verification)
    ensures HandleWebhook(v, true).status == HandleWebhook(v, false).status
    ensures HandleWebhook(v, true).body == HandleWebhook(v, false).body
    ensures HandleWebhook(v, true).dispatched == HandleWebhook(v, false).dispatched
  {
  }
}
