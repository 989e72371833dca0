/**
  Scroll-depth tracking: the scroll handler remembers the deepest scroll
  seen and reports each milestone (25, 50, 75, 90 and 100 percent) once.
  Also the reading of the shown total price back from its text.
*/
module Tracking {
  import opened Wrappers
  import opened JsStrings

  /** The milestones, in percent, in the order the handler visits them. */
  const Milestones: seq<int> := [25, 50, 75, 90, 100]

  predicate Ascending(s: seq<int>) {
    forall i, j :: 0 <= i < j < |s| ==> s[i] < s[j]
  }

  predicate NoDuplicates(s: seq<int>) {
    forall i, j :: 0 <= i < j < |s| ==> s[i] != s[j]
  }

  function ElementsOf(s: seq<int>): set<int> {
    set x | x in s
  }

  /** The milestones at or below a scroll depth. */
  function ReachedBy(depth: int): set<int> {
    set m | m in Milestones && m <= depth
  }

  /**
    The milestones of `ms`, in their order, that `percent` reaches and that
    are not in `tracked`: what the `forEach` over the milestones reports.
  */
  function Crossed(ms: seq<int>, percent: int, tracked: set<int>): (r: seq<int>)
    ensures forall x :: x in r <==> x in ms && x <= percent && x !in tracked
    ensures Ascending(ms) ==> Ascending(r)
  {
    if ms == [] then []
    else
      var last := ms[|ms| - 1];
      var before := Crossed(ms[..|ms| - 1], percent, tracked);
      assert forall x :: x in ms[..|ms| - 1] ==> x in ms;
      if percent >= last && last !in tracked then
        assert Ascending(ms) ==> Ascending(before + [last]) by {
          if Ascending(ms) {
            assert Ascending(ms[..|ms| - 1]);
            var r := before + [last];
            forall i, j | 0 <= i < j < |r| ensures r[i] < r[j] {
              if j == |r| - 1 {
                assert r[i] in before;
                var k :| 0 <= k < |ms| - 1 && ms[k] == r[i];
              } else {
                assert r[i] == before[i] && r[j] == before[j];
              }
            }
          }
        }
        before + [last]
      else before
  }

  /** What the handler's closure keeps between events. */
  datatype ScrollState = ScrollState(maxScroll: int, tracked: set<int>)

  const Initial: ScrollState := ScrollState(0, {})

  /** One scroll event at `percent`: the new state and the milestones it reports, in order. */
  function OnScroll(s: ScrollState, percent: int): (r: (ScrollState, seq<int>))
    ensures r.0.maxScroll == if percent > s.maxScroll then percent else s.maxScroll
    ensures forall x :: x in r.1 <==> percent > s.maxScroll && x in Milestones && x <= percent && x !in s.tracked
    ensures r.0.tracked == s.tracked + ElementsOf(r.1)
  {
    if percent > s.maxScroll then
      var fired := Crossed(Milestones, percent, s.tracked);
      (ScrollState(percent, s.tracked + ElementsOf(fired)), fired)
    else
      (s, [])
  }

  /** An event no deeper than the deepest so far changes nothing and reports nothing. */
  lemma ShallowEventIgnored(s: ScrollState, percent: int)
    requires percent <= s.maxScroll
    ensures OnScroll(s, percent) == (s, [])
  {
  }

  /** The deepest scroll never decreases: it becomes the larger of the old one and the event's. */
  lemma MaxScrollNeverDecreases(s: ScrollState, percent: int)
    ensures OnScroll(s, percent).0.maxScroll >= s.maxScroll
    ensures OnScroll(s, percent).0.maxScroll == if percent > s.maxScroll then percent else s.maxScroll
  {
  }

  /**
    After a deeper event, every milestone it reaches is tracked; the event
    reports, in ascending order, exactly those it reaches that were not
    tracked before.
  */
  lemma DeeperEventTracksReached(s: ScrollState, percent: int)
    requires percent > s.maxScroll
    ensures ReachedBy(percent) <= OnScroll(s, percent).0.tracked
    ensures Ascending(OnScroll(s, percent).1)
    ensures forall x :: x in OnScroll(s, percent).1 <==> x in ReachedBy(percent) && x !in s.tracked
  {
    assert Ascending(Milestones);
  }

  /** Tracked milestones are always milestones. */
  lemma TrackedAreMilestones(s: ScrollState, percent: int)
    requires s.tracked <= ElementsOf(Milestones)
    ensures OnScroll(s, percent).0.tracked <= ElementsOf(Milestones)
  {
  }

  /**
    The closure's invariant: the tracked milestones are exactly those the
    deepest scroll reached. Under it an event reports the milestones between
    the old and the new deepest scroll.
  */
  lemma {:induction false} OnScrollKeepsReached(s: ScrollState, percent: int)
    requires s.tracked == ReachedBy(s.maxScroll)
    ensures OnScroll(s, percent).0.tracked == ReachedBy(OnScroll(s, percent).0.maxScroll)
    ensures forall x :: x in OnScroll(s, percent).1 <==> x in Milestones && s.maxScroll < x <= percent
  {
    if percent > s.maxScroll {
      var fired := OnScroll(s, percent).1;
      assert ReachedBy(s.maxScroll) <= ReachedBy(percent);
      assert s.tracked + ElementsOf(fired) == ReachedBy(percent);
    }
  }

  /** A run of scroll events: the final state and every milestone reported, in order. */
  function Run(s: ScrollState, percents: seq<int>): (ScrollState, seq<int>)
    decreases |percents|
  {
    if percents == [] then (s, [])
    else
      var (s1, fired) := OnScroll(s, percents[0]);
      var (s2, later) := Run(s1, percents[1..]);
      (s2, fired + later)
  }

  /**
    Over any run of events each milestone is reported at most once, never one
    that was already tracked, and the tracked set grows by exactly those reported.
  */
  lemma {:induction false} EachMilestoneOnce(s: ScrollState, percents: seq<int>)
    ensures NoDuplicates(Run(s, percents).1)
    ensures forall x :: x in Run(s, percents).1 ==> x !in s.tracked && x in Milestones
    ensures Run(s, percents).0.tracked == s.tracked + ElementsOf(Run(s, percents).1)
    decreases |percents|
  {
    if percents != [] {
      var (s1, fired) := OnScroll(s, percents[0]);
      var (s2, later) := Run(s1, percents[1..]);
      EachMilestoneOnce(s1, percents[1..]);
      if percents[0] > s.maxScroll {
        assert Ascending(Milestones);
        assert Ascending(fired);
      }
      var all := fired + later;
      assert Run(s, percents).1 == all;
      forall i, j | 0 <= i < j < |all| ensures all[i] != all[j] {
        if j < |fired| {
        } else if i >= |fired| {
          assert all[i] == later[i - |fired|] && all[j] == later[j - |fired|];
        } else {
          assert all[i] in fired && all[j] in later;
        }
      }
      assert ElementsOf(all) == ElementsOf(fired) + ElementsOf(later);
    }
  }

  /** `trackScrollDepth`'s closure: the deepest scroll and the milestones already reported. */
  class ScrollDepthTracker {
    var maxScroll: int
    var trackedMilestones: set<int>
    /** every milestone reported so far, in order */
    ghost var emitted: seq<int>

    ghost predicate Valid()
      reads this
    {
      && trackedMilestones == ReachedBy(maxScroll)
      && NoDuplicates(emitted)
      && ElementsOf(emitted) == trackedMilestones
    }

    function State(): ScrollState
      reads this
    {
      ScrollState(maxScroll, trackedMilestones)
    }

    constructor ()
      ensures Valid() && State() == Initial && emitted == []
    {
      maxScroll, trackedMilestones := 0, {};
      emitted := [];
      assert forall m :: m in Milestones ==> m > 0;
    }

    /** The scroll listener, given the rounded scroll percentage. */
    method HandleScroll(percent: int) returns (fired: seq<int>)
      requires Valid()
      modifies this
      ensures Valid()
      ensures (State(), fired) == OnScroll(old(State()), percent)
      ensures emitted == old(emitted) + fired
    {
      fired := [];
      if percent > maxScroll {
        ghost var before := trackedMilestones;
        ghost var oldMax := maxScroll;
        maxScroll := percent;
        var i := 0;
        while i < |Milestones|
          invariant 0 <= i <= |Milestones|
          invariant maxScroll == percent
          invariant fired == Crossed(Milestones[..i], percent, before)
          invariant trackedMilestones == before + ElementsOf(fired)
          invariant emitted == old(emitted) + fired
        {
          var milestone := Milestones[i];
          CrossedPrefixStep(i, percent, before);
          if percent >= milestone && milestone !in trackedMilestones {
            trackedMilestones := trackedMilestones + {milestone};
            fired := fired + [milestone];
            emitted := emitted + [milestone];
          }
          i := i + 1;
        }
        assert Milestones[..i] == Milestones;
        DeeperEventKeepsTracker(oldMax, before, percent, old(emitted));
      }
    }
  }

  /** One turn of the `forEach`: the milestone at i is new to the report so far. */
  lemma CrossedPrefixStep(i: int, percent: int, tracked: set<int>)
    requires 0 <= i < |Milestones|
    ensures Crossed(Milestones[..i + 1], percent, tracked) ==
      Crossed(Milestones[..i], percent, tracked) +
      (if percent >= Milestones[i] && Milestones[i] !in tracked then [Milestones[i]] else [])
    ensures Milestones[i] !in Crossed(Milestones[..i], percent, tracked)
  {
    assert Milestones[..i + 1][..i] == Milestones[..i];
    assert Milestones[i] !in Milestones[..i];
  }

  /** The tracker's invariant survives a deeper event, whose report extends what was emitted. */
  lemma DeeperEventKeepsTracker(oldMax: int, before: set<int>, percent: int, oldEmitted: seq<int>)
    requires before == ReachedBy(oldMax) && percent > oldMax
    requires NoDuplicates(oldEmitted) && ElementsOf(oldEmitted) == before
    ensures OnScroll(ScrollState(oldMax, before), percent) ==
      (ScrollState(percent, before + ElementsOf(Crossed(Milestones, percent, before))), Crossed(Milestones, percent, before))
    ensures before + ElementsOf(Crossed(Milestones, percent, before)) == ReachedBy(percent)
    ensures NoDuplicates(oldEmitted + Crossed(Milestones, percent, before))
    ensures ElementsOf(oldEmitted + Crossed(Milestones, percent, before)) ==
      before + ElementsOf(Crossed(Milestones, percent, before))
  {
    var s := ScrollState(oldMax, before);
    var fired := Crossed(Milestones, percent, before);
    OnScrollKeepsReached(s, percent);
    EachMilestoneOnce(s, [percent]);
    assert Run(s, [percent]).1 == fired;
    AppendDistinct(oldEmitted, fired);
  }

  /** Two duplicate-free sequences with no common element make a duplicate-free sequence. */
  lemma AppendDistinct(a: seq<int>, b: seq<int>)
    requires NoDuplicates(a) && NoDuplicates(b)
    requires forall x :: x in b ==> x !in a
    ensures NoDuplicates(a + b) && ElementsOf(a + b) == ElementsOf(a) + ElementsOf(b)
  {
    var ab := a + b;
    forall i, j | 0 <= i < j < |ab| ensures ab[i] != ab[j] {
      if j < |a| {
      } else if i >= |a| {
        assert ab[i] == b[i - |a|] && ab[j] == b[j - |a|];
      } else {
        assert ab[i] in a && ab[j] in b;
      }
    }
  }

  predicate PriceChar(c: char) {
    IsDigit(c) || c == '.'
  }

  /** `text.replace(/[^0-9.]/g, '')`: keeps the digits and dots, in order. */
  function KeepPriceChars(s: string): (r: string)
    ensures forall i :: 0 <= i < |r| ==> PriceChar(r[i])
    ensures |r| <= |s|
  {
    if s == [] then []
    else if PriceChar(s[0]) then [s[0]] + KeepPriceChars(s[1..])
    else KeepPriceChars(s[1..])
  }

  /** Every digit and dot of the text is kept, as often as it occurs. */
  lemma {:induction false} KeepsEveryPriceChar(s: string, c: char)
    requires PriceChar(c)
    ensures multiset(KeepPriceChars(s))[c] == multiset(s)[c]
  {
    if s != [] {
      assert s == [s[0]] + s[1..];
      KeepsEveryPriceChar(s[1..], c);
    }
  }

  /** Text that is already only digits and dots is left as it is. */
  lemma {:induction false} CleanPriceTextKept(s: string)
    requires forall i :: 0 <= i < |s| ==> PriceChar(s[i])
    ensures KeepPriceChars(s) == s
  {
    if s != [] {
      CleanPriceTextKept(s[1..]);
    }
  }

  /** Filtering a concatenation filters each part. */
  lemma {:induction false} KeepPriceCharsConcat(a: string, b: string)
    ensures KeepPriceChars(a + b) == KeepPriceChars(a) + KeepPriceChars(b)
  {
    if a != [] {
      var ab := a + b;
      assert ab[1..] == a[1..] + b;
      assert ab[0] == a[0];
      KeepPriceCharsConcat(a[1..], b);
      var head := if PriceChar(a[0]) then [a[0]] else [];
      assert KeepPriceChars(ab) == head + KeepPriceChars(a[1..] + b);
      assert KeepPriceChars(a) == head + KeepPriceChars(a[1..]);
    } else {
      assert a + b == b;
    }
  }

  /** The longest run of digits at the start of s. */
  function LeadingDigits(s: string): (d: string)
    ensures AllDigits(d) && |d| <= |s| && d == s[..|d|]
    ensures |d| < |s| ==> !IsDigit(s[|d|])
  {
    if s == [] || !IsDigit(s[0]) then [] else [s[0]] + LeadingDigits(s[1..])
  }

  /**
    `parseFloat` on a string of digits and dots, as an exact decimal: the
    leading digits, then after a first dot the digits up to the next one.
    None is NaN, when there are no digits before the second dot.
  */
  function ParseDecimal(s: string): (r: Option<real>)
    ensures r.None? <==> LeadingDigits(s) == [] && !(|s| >= 2 && s[0] == '.' && IsDigit(s[1]))
    ensures r.Some? ==>
      DigitsValue(LeadingDigits(s)) as real <= r.value < DigitsValue(LeadingDigits(s)) as real + 1.0
  {
    var whole := LeadingDigits(s);
    var rest := s[|whole|..];
    var frac := if rest != [] && rest[0] == '.' then LeadingDigits(rest[1..]) else "";
    if whole == [] && frac == [] then None
    else
      FractionBelowOne(frac);
      Some(DigitsValue(whole) as real + DigitsValue(frac) as real / Pow10(|frac|) as real)
  }

  /** The digits after the dot add less than one. */
  lemma FractionBelowOne(frac: string)
    requires AllDigits(frac)
    ensures 0.0 <= DigitsValue(frac) as real / Pow10(|frac|) as real < 1.0
  {
    DigitsBelowPow10(frac);
    ProperFraction(DigitsValue(frac), Pow10(|frac|));
  }

  lemma ProperFraction(a: nat, b: nat)
    requires a < b
    ensures 0.0 <= a as real / b as real < 1.0
  {
    var q := a as real / b as real;
    assert q * b as real == a as real;
  }

  /** `getCurrentTotalPrice`: the number in the total's text, or 0 without the element or a number. */
  function CurrentTotalPrice(element: Option<string>): (p: real)
    ensures p >= 0.0
    ensures element.None? ==> p == 0.0
    ensures element.Some? && ParseDecimal(KeepPriceChars(element.value)).None? ==> p == 0.0
    ensures element.Some? && ParseDecimal(KeepPriceChars(element.value)).Some? ==>
      p == ParseDecimal(KeepPriceChars(element.value)).value
  {
    match element
    case None => 0.0
    case Some(text) => ParseDecimal(KeepPriceChars(text)).GetOr(0.0)
  }

  /**
    A total shown as a currency symbol, whole units and ".00" reads back as
    those whole units.
  */
  lemma WholeTotalReadsBack(symbol: string, n: nat)
    requires forall i :: 0 <= i < |symbol| ==> !PriceChar(symbol[i])
    ensures CurrentTotalPrice(Some(symbol + NatToDigits(n) + ".00")) == n as real
  {
    WholeTotalFiltered(symbol, NatToDigits(n));
    WholeTotalParsed(n);
  }

  /** Digits, a dot and two more digits parse as the whole part plus the cents. */
  lemma TwoDecimalsParsed(digits: string, cents: string, text: string)
    requires AllDigits(digits) && AllDigits(cents) && |cents| == 2
    requires text == digits + "." + cents
    ensures ParseDecimal(text) == Some(DigitsValue(digits) as real + DigitsValue(cents) as real / 100.0)
  {
    assert text == digits + ("." + cents);
    DigitsBeforeDot(digits, "." + cents);
    assert text[|digits|..] == "." + cents;
    assert ("." + cents)[1..] == cents;
    DigitsLeadAll(cents);
    assert Pow10(2) == 100 by {
      assert Pow10(1) == 10;
    }
  }

  /** A string of digits is its own leading run of digits. */
  lemma {:induction false} DigitsLeadAll(s: string)
    requires AllDigits(s)
    ensures LeadingDigits(s) == s
  {
    if s != [] {
      DigitsLeadAll(s[1..]);
    }
  }

  /** Digit groups written with the thousands separator, as `toLocaleString` writes them. */
  function GroupedDigits(groups: seq<string>): string {
    if |groups| <= 1 then (if groups == [] then "" else groups[0])
    else groups[0] + "," + GroupedDigits(groups[1..])
  }

  /** The same digit groups without separators. */
  function DigitsOfGroups(groups: seq<string>): (d: string)
    ensures (forall i :: 0 <= i < |groups| ==> AllDigits(groups[i])) ==> AllDigits(d)
  {
    if groups == [] then "" else groups[0] + DigitsOfGroups(groups[1..])
  }

  /** Filtering drops every separator and keeps every digit of every group. */
  lemma {:induction false} GroupsFiltered(groups: seq<string>)
    requires forall i :: 0 <= i < |groups| ==> AllDigits(groups[i])
    ensures KeepPriceChars(GroupedDigits(groups)) == DigitsOfGroups(groups)
    ensures AllDigits(DigitsOfGroups(groups))
  {
    if groups != [] {
      var g := groups[0];
      CleanPriceTextKept(g);
      GroupsFiltered(groups[1..]);
      if |groups| == 1 {
        assert DigitsOfGroups(groups) == g + "";
      } else {
        var tail := GroupedDigits(groups[1..]);
        assert GroupedDigits(groups) == g + ("," + tail);
        KeepPriceCharsConcat(g, "," + tail);
        KeepPriceCharsConcat(",", tail);
        SymbolDropped(",");
        assert "" + KeepPriceChars(tail) == KeepPriceChars(tail);
      }
    }
  }

  /**
    A total shown as a currency symbol, comma-grouped whole units, a dot and
    two decimals reads back as the units plus the cents.
  */
  lemma GroupedTotalReadsBack(symbol: string, groups: seq<string>, cents: string)
    requires forall i :: 0 <= i < |symbol| ==> !PriceChar(symbol[i])
    requires forall i :: 0 <= i < |groups| ==> AllDigits(groups[i])
    requires AllDigits(cents) && |cents| == 2
    ensures CurrentTotalPrice(Some(symbol + GroupedDigits(groups) + "." + cents)) ==
      DigitsValue(DigitsOfGroups(groups)) as real + DigitsValue(cents) as real / 100.0
  {
    var digits := DigitsOfGroups(groups);
    var text := symbol + GroupedDigits(groups) + "." + cents;
    GroupedTotalFiltered(symbol, groups, cents);
    assert KeepPriceChars(text) == digits + "." + cents;
    TwoDecimalsParsed(digits, cents, KeepPriceChars(text));
  }

  lemma GroupedTotalFiltered(symbol: string, groups: seq<string>, cents: string)
    requires forall i :: 0 <= i < |symbol| ==> !PriceChar(symbol[i])
    requires forall i :: 0 <= i < |groups| ==> AllDigits(groups[i])
    requires AllDigits(cents)
    ensures KeepPriceChars(symbol + GroupedDigits(groups) + "." + cents) == DigitsOfGroups(groups) + "." + cents
  {
    var g := GroupedDigits(groups);
    var t := "." + cents;
    assert forall i :: 0 <= i < |t| ==> PriceChar(t[i]);
    CleanPriceTextKept(t);
    GroupsFiltered(groups);
    SymbolDropped(symbol);
    assert symbol + g + "." + cents == symbol + (g + t);
    KeepPriceCharsConcat(symbol, g + t);
    KeepPriceCharsConcat(g, t);
    assert "" + (DigitsOfGroups(groups) + t) == DigitsOfGroups(groups) + "." + cents;
  }

  lemma WholeTotalFiltered(symbol: string, digits: string)
    requires forall i :: 0 <= i < |symbol| ==> !PriceChar(symbol[i])
    requires AllDigits(digits)
    ensures KeepPriceChars(symbol + digits + ".00") == digits + ".00"
  {
    var t := digits + ".00";
    assert forall i :: 0 <= i < |t| ==> PriceChar(t[i]);
    CleanPriceTextKept(t);
    SymbolDropped(symbol);
    assert symbol + digits + ".00" == symbol + t;
    KeepPriceCharsConcat(symbol, t);
    assert "" + t == t;
  }

  lemma WholeTotalParsed(n: nat)
    ensures ParseDecimal(NatToDigits(n) + ".00") == Some(n as real)
  {
    WholeDigitsParsed(NatToDigits(n));
    DigitsRoundTrip(n);
  }

  /** Digits followed by ".00" parse as the number the digits denote. */
  lemma WholeDigitsParsed(digits: string)
    requires AllDigits(digits)
    ensures ParseDecimal(digits + ".00") == Some(DigitsValue(digits) as real)
  {
    WholeDigitsThenCents(digits, digits + ".00");
  }

  lemma WholeDigitsThenCents(digits: string, text: string)
    requires AllDigits(digits) && text == digits + ".00"
    ensures ParseDecimal(text) == Some(DigitsValue(digits) as real)
  {
    assert LeadingDigits(text) == digits by {
      DigitsBeforeDot(digits, ".00");
    }
    assert text[|digits|..] == ".00";
    ZeroCents();
    assert ParseDecimal(text) == Some(DigitsValue(digits) as real + 0.0 / 100.0);
  }

  /** The ".00" after a whole amount adds nothing. */
  lemma ZeroCents()
    ensures ".00"[0] == '.' && ".00"[1..] == "00"
    ensures LeadingDigits("00") == "00" && DigitsValue("00") == 0 && Pow10(2) == 100
  {
    assert "00"[1..] == "0" && "0"[1..] == "";
    assert "00"[..1] == "0" && "0"[..0] == "";
  }

  /** Text without digits or dots filters to nothing. */
  lemma {:induction false} SymbolDropped(symbol: string)
    requires forall i :: 0 <= i < |symbol| ==> !PriceChar(symbol[i])
    ensures KeepPriceChars(symbol) == ""
  {
    if symbol != [] {
      SymbolDropped(symbol[1..]);
    }
  }

  /** The leading digits stop at the first non-digit. */
  lemma {:induction false} DigitsBeforeDot(d: string, rest: string)
    requires AllDigits(d) && rest != [] && !IsDigit(rest[0])
    ensures LeadingDigits(d + rest) == d
  {
    if d != [] {
      assert (d + rest)[1..] == d[1..] + rest;
      DigitsBeforeDot(d[1..], rest);
    } else {
      assert d + rest == rest;
    }
  }

  /** Without the total element the price is 0; so it is for text with no number in it. */
  lemma NoNumberIsZero(text: string)
    requires forall i :: 0 <= i < |text| ==> !PriceChar(text[i])
    ensures CurrentTotalPrice(None) == 0.0
    ensures CurrentTotalPrice(Some(text)) == 0.0
  {
    SymbolDropped(text);
  }

  /** The thousands separator and the symbol are dropped: "$1,178.00" reads as 1178. */
  lemma FormattedTotalReadsBack()
    ensures CurrentTotalPrice(Some("$1,178.00")) == 1178.0
  {
    FormattedTotalFiltered();
    FilteredTotalParsed();
  }

  lemma FormattedTotalFiltered()
    ensures KeepPriceChars("$1,178.00") == "1178.00"
  {
    KeepPriceCharsConcat("$1,", "178.00");
    assert "$1,178.00" == "$1," + "178.00";
    SeparatedPrefix();
    CleanPriceTextKept("178.00");
    assert "1" + "178.00" == "1178.00";
  }

  lemma FilteredTotalParsed()
    ensures ParseDecimal("1178.00") == Some(1178.0)
  {
    WholeDigitsParsed("1178");
    assert "1178" + ".00" == "1178.00";
    DigitsOfTotal();
  }

  lemma SeparatedPrefix()
    ensures KeepPriceChars("$1,") == "1"
  {
    assert "$1,"[1..] == "1,";
    assert "1,"[1..] == ",";
    assert ","[1..] == "";
  }

  lemma DigitsOfTotal()
    ensures DigitsValue("1178") == 1178
  {
    assert "1178"[..3] == "117" && "117"[..2] == "11" && "11"[..1] == "1" && "1"[..0] == "";
  }

  /** Scrolling to 30, back to 10, then to the bottom reports each milestone once, in order. */
  lemma SampleScrollTrace()
    ensures Run(Initial, [30, 10, 100]).1 == [25, 50, 75, 90, 100]
  {
    var s1 := ScrollState(30, {25});
    ScrollTo30();
    BackThenBottom(s1, [10, 100]);
    RunStep(Initial, [30, 10, 100], s1, [25]);
    assert [30, 10, 100][1..] == [10, 100];
  }

  lemma BackThenBottom(s1: ScrollState, trace: seq<int>)
    requires s1 == ScrollState(30, {25}) && trace == [10, 100]
    ensures Run(s1, trace).1 == [50, 75, 90, 100]
  {
    ScrollToBottom();
    RunStep(s1, trace[1..], ScrollState(100, {25, 50, 75, 90, 100}), [50, 75, 90, 100]);
    ShallowEventIgnored(s1, 10);
    RunStep(s1, trace, s1, []);
  }

  /** A run is its first event followed by the rest of the run. */
  lemma RunStep(s: ScrollState, percents: seq<int>, next: ScrollState, fired: seq<int>)
    requires percents != [] && OnScroll(s, percents[0]) == (next, fired)
    ensures Run(s, percents).1 == fired + Run(next, percents[1..]).1
  {
  }

  lemma ScrollTo30()
    ensures OnScroll(Initial, 30) == (ScrollState(30, {25}), [25])
  {
    CrossedIsSortedSelection(30, {}, [25]);
    assert Crossed(Milestones, 30, {}) == [25];
    assert ElementsOf([25]) == {25};
    assert OnScroll(Initial, 30).1 == [25];
    assert OnScroll(Initial, 30).0 == ScrollState(30, {25});
  }

  lemma ScrollToBottom()
    ensures OnScroll(ScrollState(30, {25}), 100) == (ScrollState(100, {25, 50, 75, 90, 100}), [50, 75, 90, 100])
  {
    CrossedIsSortedSelection(100, {25}, [50, 75, 90, 100]);
    assert Crossed(Milestones, 100, {25}) == [50, 75, 90, 100];
    assert ElementsOf([50, 75, 90, 100]) == {50, 75, 90, 100};
    assert {25} + ElementsOf([50, 75, 90, 100]) == {25, 50, 75, 90, 100};
  }

  /**
    What a scroll event reports is the one ascending sequence of the
    milestones it reaches that were not tracked.
  */
  lemma CrossedIsSortedSelection(percent: int, tracked: set<int>, expected: seq<int>)
    requires Ascending(expected)
    requires forall x :: x in expected <==> x in Milestones && x <= percent && x !in tracked
    ensures Crossed(Milestones, percent, tracked) == expected
  {
    assert Ascending(Milestones);
    AscendingUnique(Crossed(Milestones, percent, tracked), expected);
  }

  /** Two ascending sequences with the same elements are the same sequence. */
  lemma {:induction false} AscendingUnique(a: seq<int>, b: seq<int>)
    requires Ascending(a) && Ascending(b)
    requires forall x :: x in a <==> x in b
    ensures a == b
    decreases |a|
  {
    SameElementsBothEmpty(a, b);
    if a != [] {
      assert a[0] in a;
      assert b[0] in b;
      var i :| 0 <= i < |b| && b[i] == a[0];
      var j :| 0 <= j < |a| && a[j] == b[0];
      assert a[0] <= a[j] && b[0] <= b[i];
      AscendingTail(a);
      AscendingTail(b);
      AscendingUnique(a[1..], b[1..]);
      assert a == [a[0]] + a[1..] && b == [b[0]] + b[1..];
    }
  }

  /** Sequences with the same elements are empty together. */
  lemma SameElementsBothEmpty(a: seq<int>, b: seq<int>)
    requires forall x :: x in a <==> x in b
    ensures a == [] <==> b == []
  {
    if a != [] {
      var x := a[0];
      assert x in a;
      assert x in a <==> x in b;
    }
    if b != [] {
      var x := b[0];
      assert x in b;
      assert x in a <==> x in b;
    }
  }

  /** The tail of an ascending sequence is it without its first element. */
  lemma AscendingTail(a: seq<int>)
    requires Ascending(a) && a != []
    ensures Ascending(a[1..])
    ensures forall x :: x in a[1..] <==> x in a && x != a[0]
  {
    forall x ensures x in a[1..] <==> x in a && x != a[0] {
      if x in a[1..] {
        var k :| 1 <= k < |a| && a[k] == x;
      }
      if x in a && x != a[0] {
        var k :| 0 <= k < |a| && a[k] == x;
        assert a[1..][k - 1] == x;
      }
    }
  }
}
