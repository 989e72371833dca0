/**
  The body the booking page posts to create a payment intent when the card
  form is submitted, and how it fares against the server's validation.
*/
module CheckoutRequest {
  import opened Wrappers
  import opened JsStrings
  import opened Pricing
  import opened Booking
  import opened PaymentServer

  /** Display exchange rates from USD; this revision also charges with them. */
  const ExchangeRates: map<string, real> := map["USD" := 1.0, "BRL" := 5.5, "EUR" := 0.85]

  /** `s.charAt(0).toUpperCase() + s.slice(1)` */
  function Capitalize(s: string): (r: string)
    ensures |r| == |s|
    ensures s != [] ==> r[0] == UpperChar(s[0]) && r[1..] == s[1..]
  {
    if s == [] then [] else [UpperChar(s[0])] + s[1..]
  }

  /** The plan name sent to the server, e.g. "Orlando - 3 Days". */
  function PlanName(destination: string, days: int): (name: string)
    ensures name != ""
  {
    Capitalize(destination) + " - " + IntToString(days) + " Day" + (if days > 1 then "s" else "")
  }

  /**
    The request body built on submit. `totalUsd` is the total captured when the
    payment form was opened; the date is read from its input again on submit.
    An unknown currency makes the amount NaN, which JSON sends as null.
  */
  function PaymentRequestBody(
    totalUsd: int, currency: string, destination: string, plan: Plan, party: Passengers, date: string)
    : (d: PaymentData)
    ensures d.amount.None? <==> currency !in ExchangeRates
    ensures d.amount.Some? ==> d.amount.value == totalUsd as real * ExchangeRates[currency]
    ensures d.currency == Some(currency) && d.date == Some(date)
    ensures d.passengers == Some(party.adults + party.children)
    ensures d.plan.Some? && d.plan.value.days == Some(plan.days)
    ensures d.plan.value.name == Some(PlanName(destination, plan.days)) && d.plan.value.name.value != ""
  {
    PaymentData(
      if currency in ExchangeRates then Some(totalUsd as real * ExchangeRates[currency]) else None,
      Some(currency),
      Some(PlanData(Some(PlanName(destination, plan.days)), Some(plan.days))),
      Some(party.adults + party.children),
      Some(date))
  }

  /**
    Whatever currency is chosen, the amount charged is the USD total scaled
    by that currency's rate: the display currency decides the charge.
  */
  lemma ChargeFollowsDisplayCurrency(totalUsd: int, destination: string, plan: Plan, party: Passengers, date: string)
    ensures PaymentRequestBody(totalUsd, "USD", destination, plan, party, date).amount == Some(totalUsd as real)
    ensures PaymentRequestBody(totalUsd, "BRL", destination, plan, party, date).amount == Some(totalUsd as real * 5.5)
    ensures PaymentRequestBody(totalUsd, "EUR", destination, plan, party, date).amount == Some(totalUsd as real * 0.85)
  {
  }

  /**
    A body built after the checkout checks passed, for a currency of the
    selector and a date still filled in on submit, passes every server check.
  */
  lemma CheckedCheckoutPassesValidation(
    page: Passengers, selected: Option<Plan>, travelDate: string, currency: string,
    destination: string, submitDate: string)
    requires CountsValid(page)
    requires selected.Some? && selected.value in Plans
    requires CheckoutPreconditions(selected, travelDate, page.adults, page.children).Success?
    requires currency in ExchangeRates && submitDate != ""
    ensures ValidatePaymentData(PaymentRequestBody(
      CheckoutPreconditions(selected, travelDate, page.adults, page.children).value,
      currency, destination, selected.value, page, submitDate)).Accepted?
  {
    var total := CheckoutPreconditions(selected, travelDate, page.adults, page.children).value;
    var d := PaymentRequestBody(total, currency, destination, selected.value, page, submitDate);
    PlansArePriced(selected.value);
    assert total >= 199;
    assert ToUpperCase(currency) == currency by {
      assert currency == "USD" || currency == "BRL" || currency == "EUR";
      CodeCases();
    }
    assert AmountOk(d) && CurrencyOk(d) && PlanOk(d) && PassengersOk(d) && DateOk(d);
  }

  /** If the date input was cleared after the form opened, the server refuses the request. */
  lemma ClearedDateIsRefused(
    totalUsd: int, currency: string, destination: string, plan: Plan, party: Passengers)
    requires totalUsd >= 1 && currency in ExchangeRates && plan in Plans && CountsValid(party)
    ensures ValidatePaymentData(PaymentRequestBody(totalUsd, currency, destination, plan, party, "")) ==
      Rejected("Invalid date")
  {
    var d := PaymentRequestBody(totalUsd, currency, destination, plan, party, "");
    assert ToUpperCase(currency) == currency by {
      assert currency == "USD" || currency == "BRL" || currency == "EUR";
      CodeCases();
    }
    assert AmountOk(d) && CurrencyOk(d) && PlanOk(d) && PassengersOk(d) && !DateOk(d);
  }
}
