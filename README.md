# Theme-park remote-guidance booking site: a Dafny model of its core logic

The site sells remote-guidance plans for the theme parks of Orlando,
California and Paris. A plan
runs 1 to 4 days and has a fixed USD price per group of up to ten
passengers. The booking page:

- counts adults and children with +/- buttons;
- auto-selects the "most popular" plan;
- shows the total;
- checks a plan, a date and the passengers before opening the payment form;
- posts the order to the server.

The server validates the order in a fixed order of checks before it
creates a payment intent. It acknowledges every webhook event whose
signature checks out. The page's texts come from a nested string table
per language, with English as fallback. An analytics helper reports
scroll-depth milestones once each and reads the shown total back from
its text.

The model has eight modules:

- `Wrappers`: Option and Result.
- `JsStrings`: the parts of JavaScript's string behaviour the core relies on: ASCII case mapping, `Number#toString` and integer parsing.
- `Pricing`: the pure pricing, group count and checkout checks of `public/js/app.js`.
- `Booking`: the passenger counter, as a function with its lemmas, and the page's mutable globals as the class `BookingPage`.
- `CheckoutRequest`: the request body the page posts, and how it fares against the server's validation.
- `PaymentServer`: `validatePaymentData`, the shaping of the intent request, and the webhook dispatch of `server.js`.
- `Translations`: the recursive lookup `Lookup`, the imperative `TranslateElement` that follows the source's two loops and is proved equal to it, and `TranslatePage` over an array of element texts.
- `Tracking`: the scroll handler as the class `ScrollDepthTracker`, proved against the function `OnScroll`, and the price-text reading.

This revision of the code behaves as follows, and so does the model:

- The card payment is charged in the display currency: the USD total times the exchange rate (`public/js/app.js:287`).
- The travel date is only checked for presence.
- Changing the currency while a plan is selected re-renders the plan cards. That auto-selects the popular 3-day plan again and replaces a plan the user chose (`public/js/app.js:350-356`, `Booking.BookingPage.ChangeCurrency`).

## Model

| member | source | states |
|---|---|---|
| Pricing.CeilTenth | public/js/app.js:150 | `Math.ceil(n/10)` on an integer: the result c satisfies 10(c-1) < n <= 10c |
| Pricing.GroupCount | public/js/app.js:150 | with at least one passenger there are g >= 1 groups and g blocks of ten just hold the party; the fallback to 1 makes any total up to 10 one group |
| Pricing.GroupCountIsCeiling | public/js/app.js:169 | the group count is the only g >= 1 with 10(g-1) < pax <= 10g |
| Pricing.GroupCountBoundaries | public/js/app.js:229 | 1-10 passengers make 1 group, 11-20 make 2, 21 makes 3 |
| Pricing.GroupCountMonotone | public/js/app.js:150 | more passengers never make fewer groups |
| Pricing.TotalPriceForGroups | public/js/app.js:151-152 | the USD total is the plan's fixed price times the number of ten-passenger blocks |
| Pricing.TwelveOnThreeDays | public/js/app.js:10-15 | 12 passengers on the 3-day plan cost 2 x 589 = 1178 USD |
| Pricing.PlansArePriced | public/js/app.js:80-85 | every plan card has a price in the table, at least 199 |
| Pricing.TotalPriceUsd | public/js/app.js:150-152 | for a party of n >= 1 the total is within one block of ten of the per-passenger tenth of the price: price x n <= 10 x total < price x (n + 10); 1-10 passengers pay the plan price once |
| Pricing.DisplayedTotalUsd | public/js/app.js:140-158 | zero without a plan or without passengers; otherwise exactly `TotalPriceUsd` of the plan and the party, hence at least the plan price and exactly it for 1-10 passengers |
| Pricing.AlertText | public/js/app.js:213-225 | every refusal shows a non-empty alert |
| Pricing.AlertsAreDistinct | public/js/app.js:213-225 | two refusals show the same alert exactly when they are the same refusal |
| Pricing.CheckoutPreconditions | public/js/app.js:212-231 | refuses for no plan, then an empty date, then no passengers, each exactly under its condition; succeeds exactly when all pass, with the displayed total |
| Pricing.FindPopular | public/js/app.js:117 | `findIndex`: the first popular card, or -1 exactly when none is popular |
| Pricing.AutoSelectIndex | public/js/app.js:117-118 | the selected index is in range; it is the first popular card whenever one exists, and card 0 when none is |
| Pricing.AutoSelectsThreeDays | public/js/app.js:116-118 | on the real cards the auto-selected one is index 2, the 3-day plan |
| Booking.PassengerButton | public/js/app.js:381-392 | any click keeps both counters non-negative and at least one passenger |
| Booking.IncreaseAddsOne | public/js/app.js:381-383 | "increase" adds one to the named counter and leaves the other alone |
| Booking.DecreaseAdults | public/js/app.js:385-386 | "decrease adults" removes one exactly when adults > 1, or adults == 1 with children; else nothing changes |
| Booking.DecreaseChildren | public/js/app.js:387-392 | "decrease children" removes one when there is one; a party emptied by it gets one adult back |
| Booking.ResetOnlyWhenEmpty | public/js/app.js:392 | the reset to one adult happens only when the click left both counters at zero |
| Booking.DecreaseUndoesIncrease | public/js/app.js:381-390 | a decrease right after an increase of the same counter restores the party |
| Booking.OtherButtonsChangeNothing | public/js/app.js:378-390 | an unknown data-type or data-action leaves the party as it was |
| Booking.BookingPage.constructor | public/js/app.js:2-6 | the page starts with one adult, no children, no plan, no destination, USD |
| Booking.BookingPage.OnPassengerButton | public/js/app.js:374-392 | the counters become `PassengerButton` of the old ones; the page invariant holds |
| Booking.BookingPage.SelectPlan | public/js/app.js:122-137 | selects card `index` when it is drawn; otherwise the selection is unchanged |
| Booking.BookingPage.RenderPlans | public/js/app.js:77-119 | after drawing the cards the 3-day popular plan is selected |
| Booking.BookingPage.ShowPlans | public/js/app.js:54-74 | records the destination, clears the selection, and ends with the 3-day plan selected |
| Booking.BookingPage.ChangeCurrency | public/js/app.js:350-356 | sets the currency; with a plan selected the selection becomes the 3-day plan, otherwise nothing else changes |
| Booking.BookingPage.ShowCheckoutModal | public/js/app.js:208-250 | the result is `CheckoutPreconditions` of the page state; a refusal shows its `AlertText`; a success shows no alert and carries at least 199 USD |
| CheckoutRequest.Capitalize | public/js/app.js:299 | same length, first letter upper-cased, the rest as it was |
| CheckoutRequest.PlanName | public/js/app.js:299 | the plan name sent to the server is never empty |
| CheckoutRequest.PaymentRequestBody | public/js/app.js:287-304 | the amount is the USD total times the currency's rate, and null (NaN) for a currency without one; the currency, date, plan days and passenger total are the page's; the plan name is `PlanName` of the destination and the days, and is not empty |
| CheckoutRequest.ChargeFollowsDisplayCurrency | public/js/app.js:287 | the amount posted is the USD total times 1, 5.5 or 0.85 for USD, BRL or EUR |
| CheckoutRequest.CheckedCheckoutPassesValidation | public/js/app.js:295-304 | a body built after the checkout checks passed, for a listed currency and a date still set, passes every server check |
| CheckoutRequest.ClearedDateIsRefused | public/js/app.js:303 | a date input cleared before submitting makes the server answer "Invalid date" |
| JsStrings.DigitsRoundTrip | server.js:78-79 | the decimal digits of a natural number read back as that number |
| JsStrings.IntToStringRoundTrip | server.js:78-79 | `toString` of any integer, sign included, parses back to it |
| JsStrings.ToUpperCase | server.js:36 | same length; each letter upper-cased, other characters kept |
| JsStrings.ToLowerCase | server.js:72 | same length; each letter lower-cased, other characters kept |
| JsStrings.LowerOfUpper | server.js:36-38 | lower-casing after upper-casing equals lower-casing |
| PaymentServer.ValidatePaymentData | server.js:29-53 | accepts exactly when all five checks pass; each message is returned exactly when its check is the first to fail |
| PaymentServer.CurrencyCheckIgnoresCase | server.js:36-38 | a currency passes exactly when its lower-case form is usd, brl or eur |
| PaymentServer.PlanDaysCheckIsTruthiness | server.js:40-42 | days 0 is refused as "Invalid plan data", but a negative day count passes that check |
| PaymentServer.Cents | server.js:71 | the cents are the nearest integer to amount x 100, halves rounded up |
| PaymentServer.WholeDollarsToCents | server.js:71 | a whole amount becomes exactly 100 cents per unit |
| PaymentServer.Metadata | server.js:76-82 | exactly the five keys; `service` is "vpo-guidance"; `days` and `passengers` are strings that parse back to the numbers |
| PaymentServer.ErrorText | server.js:91-93 | the error text is the message, or the fixed fallback when the message is empty |
| PaymentServer.CreatePaymentIntent | server.js:63-95 | an intent is requested exactly when validation accepts; a refusal answers 400 with its message; a request carries the rounded cents, the request's currency lower-cased (a supported one), and the metadata of the request's plan name, days, passengers and date; a created intent answers its client secret and id; a processor error answers 400 with its message or the fallback |
| PaymentServer.HandleWebhook | server.js:98-140 | a bad signature answers 400 "Webhook Error: ..." and dispatches nothing; any verified event answers 200 `{received: true}`, dispatched by its type; a business handler runs exactly for the two payment events, and ends with a logged error exactly when it faults |
| PaymentServer.HandlerFaultsDoNotReachResponse | server.js:143-186 | a fault inside a business handler changes neither the webhook's status, nor its body, nor its dispatch |
| Translations.Split | public/js/translations.js:754 | at least one segment and no dot inside a segment |
| Translations.JoinSplit | public/js/translations.js:754 | joining the segments with dots gives the key back |
| Translations.SplitJoin | public/js/translations.js:754 | splitting dot-free segments joined with dots gives the segments back |
| Translations.Child | public/js/translations.js:758-759 | a step succeeds exactly when the entry exists and is truthy (an object, or a non-empty string), and then gives that entry |
| Translations.Lookup | public/js/translations.js:757-759 | a walk that gets through a non-empty path ends at a truthy value |
| Translations.LookupSnoc | public/js/translations.js:757-759 | one more segment is one more loop step on the walk so far |
| Translations.LookupFailsOnward | public/js/translations.js:760-767 | once a prefix of the path fails, the whole path fails |
| Translations.LanguageRoot | public/js/translations.js:755 | the start of the walk is defined exactly for a language in the table, and is that language's tree |
| Translations.Translate | public/js/translations.js:755-770 | the final value is the walk in the chosen language or the walk in English; it is undefined exactly when both walks fail; a defined value is truthy |
| Translations.TextToSet | public/js/translations.js:774-776 | a text is applied exactly when the final value is a string, and it is that string, never empty |
| Translations.TranslateElement | public/js/translations.js:753-776 | the two loops with their breaks compute exactly `TextToSet` |
| Translations.TranslatePage | public/js/translations.js:749-777 | each element's text becomes its translation when there is one; otherwise it is unchanged |
| Translations.FallbackToEnglish | public/js/translations.js:760-770 | a path that fails in the chosen language is answered by the English walk alone |
| Translations.FoundNeedsNoFallback | public/js/translations.js:774-776 | a path that reaches anything in the chosen language keeps it; a subtree sets no text |
| Translations.EnglishIsSingleLookup | public/js/translations.js:755-771 | for "en" the fallback never changes the answer |
| Translations.UnknownLanguageIsEnglish | public/js/translations.js:755-761 | a language missing from the table reads English for every key |
| Translations.EmptyStringFallsBack | public/js/translations.js:168-172 | the empty Portuguese `services.title3` gives the English "Works" |
| Translations.PortugueseStringUsed | public/js/translations.js:153-155 | the Portuguese `nav.plans` gives "Planos" |
| Translations.SubtreeLeavesText | public/js/translations.js:774-776 | the key `services` ends at a subtree, so no text is set |
| Translations.MissingEverywhere | public/js/translations.js:765-767 | a key missing in both languages gives nothing |
| Translations.GermanReadsEnglish | public/js/translations.js:755-761 | language "de", absent from the table, reads the English "Services" |
| Tracking.Crossed | public/js/tracking.js:58-60 | reports exactly the milestones the percent reaches that are not yet tracked, in ascending order |
| Tracking.OnScroll | public/js/tracking.js:55-60 | the deepest scroll becomes the larger value; an event reports exactly the milestones it reaches that are not tracked, and only when it is deeper; the tracked set grows by exactly those |
| Tracking.ShallowEventIgnored | public/js/tracking.js:55 | an event no deeper than the deepest so far changes nothing and reports nothing |
| Tracking.MaxScrollNeverDecreases | public/js/tracking.js:55-56 | the deepest scroll becomes the larger of the old one and the event's |
| Tracking.DeeperEventTracksReached | public/js/tracking.js:55-60 | after a deeper event every milestone up to it is tracked; it reports, ascending, exactly the reached ones not tracked before |
| Tracking.TrackedAreMilestones | public/js/tracking.js:47-60 | the tracked set only ever holds 25, 50, 75, 90 or 100 |
| Tracking.OnScrollKeepsReached | public/js/tracking.js:45-73 | "tracked = milestones up to the deepest scroll" is kept; an event reports the milestones between the old and the new depth |
| Tracking.EachMilestoneOnce | public/js/tracking.js:48-60 | over any run of events no milestone is reported twice or when already tracked; the tracked set grows by exactly those reported |
| Tracking.CrossedIsSortedSelection | public/js/tracking.js:58-60 | what an event reports is the ascending sequence of newly reached milestones |
| Tracking.SampleScrollTrace | public/js/tracking.js:50-71 | scrolling to 30, 10 and 100 reports 25, 50, 75, 90, 100 once each, in order |
| Tracking.ScrollDepthTracker.constructor | public/js/tracking.js:46-48 | starts at depth 0 with nothing tracked or reported |
| Tracking.ScrollDepthTracker.HandleScroll | public/js/tracking.js:50-71 | the `forEach` loop gives `OnScroll`'s new state and report; each milestone is reported at most once over the tracker's lifetime |
| Tracking.KeepPriceChars | public/js/tracking.js:302 | the filtered text holds only digits and dots, and is no longer than the input |
| Tracking.KeepsEveryPriceChar | public/js/tracking.js:302 | every digit and dot is kept as often as it occurs |
| Tracking.CleanPriceTextKept | public/js/tracking.js:302 | text made only of digits and dots is unchanged |
| Tracking.KeepPriceCharsConcat | public/js/tracking.js:302 | filtering a concatenation filters each part |
| Tracking.ParseDecimal | public/js/tracking.js:303 | NaN exactly when the text starts neither with a digit nor with a dot followed by a digit; otherwise the number lies between its leading whole digits and one more |
| Tracking.CurrentTotalPrice | public/js/tracking.js:299-306 | never negative; 0 without the element or when the filtered text is NaN; otherwise the parsed number |
| Tracking.TwoDecimalsParsed | public/js/tracking.js:303 | digits, a dot and two digits parse as the whole digits plus the two decimals over 100 |
| Tracking.GroupsFiltered | public/js/tracking.js:302 | the filter drops every thousands separator and keeps the digits of every group, in order |
| Tracking.GroupedTotalReadsBack | public/js/tracking.js:299-306 | a total shown as symbol, comma-grouped units, a dot and two decimals reads back as the units plus the cents |
| Tracking.WholeTotalReadsBack | public/js/tracking.js:299-306 | a total shown as symbol, whole units and ".00" reads back as those units |
| Tracking.NoNumberIsZero | public/js/tracking.js:299-306 | a missing element, or text with no digit or dot, reads as 0 |
| Tracking.FormattedTotalReadsBack | public/js/tracking.js:299-306 | "$1,178.00" reads as 1178 |

## Left out

- Stripe is not modelled: `initializeStripe`, `initializePayment`, card confirmation, `paymentIntents.create` and `webhooks.constructEvent`. What the processor answers and whether a signature checks out are inputs.
- Network calls, Express routing, static files, the health and key endpoints, environment configuration and logging are not modelled.
- The DOM is not modelled: templates, `classList`, modals, accordions, button disabling and event wiring. The page's state is the class fields, and element texts are an array.
- Analytics calls (gtag, fbq) are not modelled; a reported milestone is an element of the handler's output.
- Floating point: amounts are exact reals. `formatPrice`, `toLocaleString` and the per-day price are not modelled.
- PaymentServer.Cents: `Math.round` is modelled on the exact amount. A binary float product such as 1.005 x 100 may round differently.
- Tracking.ParseDecimal reads the filtered text as an exact decimal. It does not model float precision, and it does not model exponents, signs or `Infinity`, which cannot survive the filter.
- The scroll percent is an integer input. Its computation from the window geometry, including a zero-height page giving NaN or Infinity, is not modelled.
- JsStrings.ToUpperCase and JsStrings.ToLowerCase change ASCII letters only. JavaScript also maps other letters, e.g. 'ſ' upper-cases to 'S', which would make "uſd" pass the currency check.
- PaymentServer.ValidatePaymentData takes a typed body: each field is present or absent with its expected type. JavaScript's coercions are not modelled: numeric strings, `toUpperCase` on a non-string, `plan.days` of another type.
- Translations.Child treats only the table's own entries as present. JavaScript would also find string indices, `length` and `Object.prototype` members.
- The `lang` attribute and the stored language choice are not modelled.
- The minimum travel date ("tomorrow") is an input attribute, not a check. The model checks the date for presence only, as the code does.
- Idempotency of payments, confirmation emails and customer records do not exist in this revision of the code; the success handler only logs. None is modelled.
- `updatePassengerUI` is modelled only for its group count, the same `GroupCount` as the total. The button disabling it also does is part of the DOM and is not modelled.
