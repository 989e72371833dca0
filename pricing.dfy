/**
  Plan pricing for the booking page: the fixed USD price of each plan, the
  group count (one group per started block of ten passengers), the total
  shown beside the plan cards, and the ordered checks the checkout button
  makes before it opens the payment form.
*/
module Pricing {
  import opened Wrappers

  /** A plan card: its length in days and whether it carries the "most popular" badge. */
  datatype Plan = Plan(days: int, popular: bool)

  /** The plan cards, in display order; `selectPlan(i)` picks `Plans[i]`. */
  const Plans: seq<Plan> := [Plan(1, false), Plan(2, false), Plan(3, true), Plan(4, false)]

  /** Price per group in USD, by plan length in days. */
  const FixedPrices: map<int, nat> := map[1 := 199, 2 := 397, 3 := 589, 4 := 749]

  /** `Math.ceil(n / 10)` for an integer n. */
  function CeilTenth(n: int): (c: int)
    ensures 10 * (c - 1) < n <= 10 * c
  {
    (n + 9) / 10
  }

  /** `Math.ceil(totalPax / 10) || 1`: the number of groups of at most ten passengers. */
  function GroupCount(totalPax: int): (g: int)
    ensures totalPax >= 1 ==> g >= 1 && 10 * (g - 1) < totalPax <= 10 * g
    ensures -10 < totalPax <= 10 ==> g == 1
  {
    var c := CeilTenth(totalPax);
    if c == 0 then 1 else c
  }

  /** The group count is the only g >= 1 whose ten-passenger blocks just hold the party. */
  lemma GroupCountIsCeiling(totalPax: int, g: int)
    requires g >= 1 && 10 * (g - 1) < totalPax <= 10 * g
    ensures GroupCount(totalPax) == g
  {
  }

  /** 1 to 10 passengers make one group, 11 to 20 two, 21 three. */
  lemma GroupCountBoundaries(totalPax: int)
    ensures 1 <= totalPax <= 10 ==> GroupCount(totalPax) == 1
    ensures 11 <= totalPax <= 20 ==> GroupCount(totalPax) == 2
    ensures totalPax == 21 ==> GroupCount(totalPax) == 3
  {
  }

  /** More passengers never make fewer groups. */
  lemma GroupCountMonotone(a: int, b: int)
    requires 1 <= a <= b
    ensures GroupCount(a) <= GroupCount(b)
  {
  }

  /** `FIXED_PRICES[plan.days] * groupCount` (lines 150-152 and 229-231). */
  function TotalPriceUsd(plan: Plan, totalPax: int): (t: int)
    requires plan.days in FixedPrices
    ensures totalPax >= 1 ==>
      FixedPrices[plan.days] * totalPax <= 10 * t < FixedPrices[plan.days] * (totalPax + 10)
    ensures 1 <= totalPax <= 10 ==> t == FixedPrices[plan.days]
  {
    var price, g := FixedPrices[plan.days], GroupCount(totalPax);
    if totalPax >= 1 then
      GroupPriceBounds(price, totalPax, g);
      price * g
    else price * g
  }

  /** g blocks of ten at `price` each cost between a tenth of the price per passenger and one block more. */
  lemma GroupPriceBounds(price: int, totalPax: int, g: int)
    requires price > 0 && 10 * (g - 1) < totalPax <= 10 * g
    ensures price * totalPax <= 10 * (price * g) < price * (totalPax + 10)
  {
    assert price * totalPax <= price * (10 * g);
    assert price * (10 * (g - 1)) < price * totalPax;
  }

  /** The total is the plan price once per started block of ten passengers. */
  lemma TotalPriceForGroups(plan: Plan, totalPax: int, g: int)
    requires plan.days in FixedPrices
    requires g >= 1 && 10 * (g - 1) < totalPax <= 10 * g
    ensures TotalPriceUsd(plan, totalPax) == FixedPrices[plan.days] * g
  {
    GroupCountIsCeiling(totalPax, g);
  }

  /** Twelve passengers on the 3-day plan make two groups at $589: $1178. */
  lemma TwelveOnThreeDays()
    ensures TotalPriceUsd(Plan(3, true), 12) == 1178
  {
    TotalPriceForGroups(Plan(3, true), 12, 2);
  }

  /** Every plan card has a price. */
  lemma PlansArePriced(p: Plan)
    requires p in Plans
    ensures p.days in FixedPrices && FixedPrices[p.days] >= 199
  {
  }

  /** The amount `updateTotalPrice` shows, in USD, before currency formatting. */
  function DisplayedTotalUsd(selected: Option<Plan>, adults: int, children: int): (t: int)
    requires selected.Some? ==> selected.value.days in FixedPrices
    ensures selected.None? || adults + children == 0 ==> t == 0
    ensures selected.Some? && adults + children >= 1 ==> t >= FixedPrices[selected.value.days]
    ensures selected.Some? && 1 <= adults + children <= 10 ==> t == FixedPrices[selected.value.days]
    ensures selected.Some? && adults + children >= 1 ==> t == TotalPriceUsd(selected.value, adults + children)
  {
    match selected
    case None => 0
    case Some(plan) =>
      var totalPax := adults + children;
      if totalPax == 0 then 0 else TotalPriceUsd(plan, totalPax)
  }

  /** Why the checkout button refuses to open the payment form. */
  datatype CheckoutError = PlanNotSelected | DateMissing | NoPassengers

  /** The alert each refusal shows. */
  function AlertText(e: CheckoutError): (t: string)
    ensures t != ""
  {
    match e
    case PlanNotSelected => "Please select a plan first."
    case DateMissing => "Please select an activation date."
    case NoPassengers => "Please select at least one passenger."
  }

  /**
    The checks of `showCheckoutModal`, in order: a plan, then a non-empty
    date, then at least one passenger. On success the result is the USD total
    handed to `initializePayment`.
  */
  function CheckoutPreconditions(selected: Option<Plan>, travelDate: string, adults: int, children: int)
    : (r: Result<int, CheckoutError>)
    requires selected.Some? ==> selected.value.days in FixedPrices
    ensures r == Failure(PlanNotSelected) <==> selected.None?
    ensures r == Failure(DateMissing) <==> selected.Some? && travelDate == ""
    ensures r == Failure(NoPassengers) <==> selected.Some? && travelDate != "" && adults + children == 0
    ensures r.Success? <==> selected.Some? && travelDate != "" && adults + children != 0
    ensures r.Success? ==> r.value == DisplayedTotalUsd(selected, adults, children)
  {
    if selected.None? then Failure(PlanNotSelected)
    else if travelDate == "" then Failure(DateMissing)
    else if adults + children == 0 then Failure(NoPassengers)
    else Success(TotalPriceUsd(selected.value, adults + children))
  }

  /** Each refusal has its own alert, so the text tells which check failed. */
  lemma AlertsAreDistinct(e1: CheckoutError, e2: CheckoutError)
    ensures AlertText(e1) == AlertText(e2) <==> e1 == e2
  {
    if e1 != e2 {
      assert |AlertText(e1)| != |AlertText(e2)|;
    }
  }

  /** `plans.findIndex(p => p.popular)`: the first popular card, or -1. */
  function FindPopular(plans: seq<Plan>): (i: int)
    ensures -1 <= i < |plans|
    ensures i >= 0 ==> plans[i].popular && forall j :: 0 <= j < i ==> !plans[j].popular
    ensures i == -1 ==> forall j :: 0 <= j < |plans| ==> !plans[j].popular
  {
    if plans == [] then -1
    else if plans[0].popular then 0
    else
      var k := FindPopular(plans[1..]);
      if k < 0 then -1 else k + 1
  }

  /** The card `renderPlans` selects: the popular one, else the first. */
  function AutoSelectIndex(plans: seq<Plan>): (i: int)
    ensures plans != [] ==> 0 <= i < |plans|
    ensures (exists j :: 0 <= j < |plans| && plans[j].popular) ==> plans[i].popular
    ensures plans != [] && (forall j :: 0 <= j < |plans| ==> !plans[j].popular) ==> i == 0
    ensures plans != [] && plans[i].popular ==> forall j :: 0 <= j < i ==> !plans[j].popular
  {
    var p := FindPopular(plans);
    if p >= 0 then p else 0
  }

  /** On the real card list the auto-selected plan is the 3-day one. */
  lemma AutoSelectsThreeDays()
    ensures AutoSelectIndex(Plans) == 2 && Plans[2] == Plan(3, true)
  {
    assert Plans[2].popular;
    assert !Plans[0].popular && !Plans[1].popular;
  }
}
