/**
  The booking page's mutable state: the passenger counter, the selected
  plan, the destination whose plans are shown and the display currency,
  with the event handlers that change them.
*/
module Booking {
  import opened Wrappers
  import opened Pricing

  datatype Passengers = Passengers(adults: int, children: int)

  /** Neither counter below zero and at least one passenger. */
  predicate CountsValid(p: Passengers) {
    p.adults >= 0 && p.children >= 0 && p.adults + p.children >= 1
  }

  /**
    Lines 381-390: what a +/- button does to the counters, before the zero
    check. `kind` and `action` are the button's data-type and data-action.
  */
  function ButtonUpdate(p: Passengers, kind: string, action: string): Passengers {
    if action == "increase" then
      if kind == "adults" then p.(adults := p.adults + 1)
      else if kind == "children" then p.(children := p.children + 1)
      else p
    else if action == "decrease" then
      if kind == "adults" && (p.adults > 1 || (p.adults == 1 && p.children > 0)) then p.(adults := p.adults - 1)
      else if kind == "children" && p.children > 0 then p.(children := p.children - 1)
      else p
    else p
  }

  /** Line 392: a party of nobody gets one adult back. */
  function ResetIfEmpty(p: Passengers): Passengers {
    if p.adults + p.children == 0 then p.(adults := 1) else p
  }

  /** One click on a passenger button. */
  function PassengerButton(p: Passengers, kind: string, action: string): (q: Passengers)
    ensures CountsValid(p) ==> CountsValid(q)
  {
    ResetIfEmpty(ButtonUpdate(p, kind, action))
  }

  /** "Increase" adds exactly one to the named counter and leaves the other alone. */
  lemma IncreaseAddsOne(p: Passengers, kind: string)
    requires CountsValid(p)
    ensures kind == "adults" ==> PassengerButton(p, kind, "increase") == Passengers(p.adults + 1, p.children)
    ensures kind == "children" ==> PassengerButton(p, kind, "increase") == Passengers(p.adults, p.children + 1)
  {
  }

  /**
    "Decrease adults" takes one adult away exactly when there are more than
    one, or one with children present; otherwise it changes nothing.
  */
  lemma DecreaseAdults(p: Passengers)
    requires CountsValid(p)
    ensures PassengerButton(p, "adults", "decrease") ==
      if p.adults > 1 || (p.adults == 1 && p.children > 0) then Passengers(p.adults - 1, p.children) else p
  {
    var q := ButtonUpdate(p, "adults", "decrease");
    assert "decrease" != "increase";
    assert q == if p.adults > 1 || (p.adults == 1 && p.children > 0) then p.(adults := p.adults - 1) else p;
  }

  /**
    "Decrease children" takes one child away when there is one; when that
    empties an adult-less party, one adult is put back.
  */
  lemma DecreaseChildren(p: Passengers)
    requires CountsValid(p)
    ensures PassengerButton(p, "children", "decrease") ==
      if p.children == 0 then p
      else if p.adults == 0 && p.children == 1 then Passengers(1, 0)
      else Passengers(p.adults, p.children - 1)
  {
    ChildrenDecreaseStep(p, "children", "decrease");
  }

  lemma ChildrenDecreaseStep(p: Passengers, kind: string, action: string)
    requires kind == "children" && action == "decrease"
    ensures ButtonUpdate(p, kind, action) == if p.children > 0 then p.(children := p.children - 1) else p
  {
    assert action != "increase" && kind != "adults";
  }

  /** The reset to one adult happens only when the click emptied both counters. */
  lemma ResetOnlyWhenEmpty(p: Passengers, kind: string, action: string)
    requires CountsValid(p)
    ensures PassengerButton(p, kind, action) != ButtonUpdate(p, kind, action) ==>
      ButtonUpdate(p, kind, action) == Passengers(0, 0) && PassengerButton(p, kind, action) == Passengers(1, 0)
  {
    var q := ButtonUpdate(p, kind, action);
    assert q.adults >= 0 && q.children >= 0;
  }

  /** A "decrease" right after an "increase" of the same counter restores the party. */
  lemma DecreaseUndoesIncrease(p: Passengers, kind: string)
    requires CountsValid(p)
    requires kind == "adults" || kind == "children"
    ensures PassengerButton(PassengerButton(p, kind, "increase"), kind, "decrease") == p
  {
  }

  /** A button with any other data-type or data-action leaves a valid party as it was. */
  lemma OtherButtonsChangeNothing(p: Passengers, kind: string, action: string)
    requires CountsValid(p)
    requires (kind != "adults" && kind != "children") || (action != "increase" && action != "decrease")
    ensures PassengerButton(p, kind, action) == p
  {
  }

  class BookingPage {
    var adults: int
    var children: int
    var selectedPlan: Option<Plan>
    var currentDestination: Option<string>
    var currentCurrency: string
    /** whether the plan cards are in the grid, so that `selectPlan` can find one */
    var plansRendered: bool

    ghost predicate Valid()
      reads this
    {
      && CountsValid(Passengers(adults, children))
      && (selectedPlan.Some? ==> selectedPlan.value in Plans && plansRendered)
      && (plansRendered ==> currentDestination.Some?)
    }

    function Counts(): Passengers
      reads this
    {
      Passengers(adults, children)
    }

    /** The module globals as the page loads them. */
    constructor ()
      ensures Valid()
      ensures adults == 1 && children == 0
      ensures selectedPlan == None && currentDestination == None
      ensures currentCurrency == "USD" && !plansRendered
    {
      adults, children := 1, 0;
      selectedPlan, currentDestination := None, None;
      currentCurrency := "USD";
      plansRendered := false;
    }

    /** The click handler of the passenger dropdown. */
    method OnPassengerButton(kind: string, action: string)
      requires Valid()
      modifies this`adults, this`children
      ensures Valid()
      ensures Counts() == PassengerButton(old(Counts()), kind, action)
    {
      if action == "increase" {
        if kind == "adults" {
          adults := adults + 1;
        } else if kind == "children" {
          children := children + 1;
        }
      } else if action == "decrease" {
        if kind == "adults" && (adults > 1 || (adults == 1 && children > 0)) {
          adults := adults - 1;
        } else if kind == "children" && children > 0 {
          children := children - 1;
        }
      }
      if adults + children == 0 {
        adults := 1;
      }
    }

    /** `selectPlan(index)`: takes effect only when a card with that index is in the grid. */
    method SelectPlan(index: int)
      requires Valid()
      modifies this`selectedPlan
      ensures Valid()
      ensures plansRendered && 0 <= index < |Plans| ==> selectedPlan == Some(Plans[index])
      ensures !(plansRendered && 0 <= index < |Plans|) ==> selectedPlan == old(selectedPlan)
    {
      if plansRendered && 0 <= index < |Plans| {
        selectedPlan := Some(Plans[index]);
      }
    }

    /** `renderPlans`: draws the cards and auto-selects the popular one. */
    method RenderPlans()
      requires Valid() && currentDestination.Some?
      modifies this`plansRendered, this`selectedPlan
      ensures Valid() && plansRendered
      ensures selectedPlan == Some(Plan(3, true))
    {
      plansRendered := true;
      var popularIndex := FindPopular(Plans);
      AutoSelectsThreeDays();
      SelectPlan(if popularIndex >= 0 then popularIndex else 0);
    }

    /** `showPlans(destination)`: clears the selection, then re-renders, which picks the 3-day plan. */
    method ShowPlans(destination: string)
      requires Valid()
      modifies this`currentDestination, this`selectedPlan, this`plansRendered
      ensures Valid()
      ensures currentDestination == Some(destination) && plansRendered
      ensures selectedPlan == Some(Plan(3, true))
    {
      currentDestination := Some(destination);
      selectedPlan := None;
      RenderPlans();
    }

    /**
      The currency selector's change handler: with a plan selected it
      re-renders the cards, and so replaces the selection by the popular plan.
    */
    method ChangeCurrency(currency: string)
      requires Valid()
      modifies this`currentCurrency, this`selectedPlan, this`plansRendered
      ensures Valid() && currentCurrency == currency
      ensures old(selectedPlan).Some? ==> selectedPlan == Some(Plan(3, true))
      ensures old(selectedPlan).None? ==> selectedPlan == None && plansRendered == old(plansRendered)
    {
      currentCurrency := currency;
      if selectedPlan.Some? {
        RenderPlans();
      }
    }

    /**
      `showCheckoutModal`: the ordered checks on the page state; on success
      the USD total to charge, on a refusal the alert it shows.
    */
    method ShowCheckoutModal(travelDate: string) returns (r: Result<int, CheckoutError>, alert: Option<string>)
      requires Valid()
      ensures r == CheckoutPreconditions(selectedPlan, travelDate, adults, children)
      ensures r.Success? ==> r.value >= 199 && alert == None
      ensures r.Failure? ==> alert == Some(AlertText(r.error))
    {
      r := CheckoutPreconditions(selectedPlan, travelDate, adults, children);
      alert := if r.Failure? then Some(AlertText(r.error)) else None;
    }
  }
}
