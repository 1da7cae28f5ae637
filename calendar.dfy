/** The second copy of the calendar-ordering calculator, which asks the salon
    for its facts instead of deriving them. The salon's three queries are
    injected as plain values. */
module Calendar {
  import opened RubyValues
  import opened Records
  import Names
  import CalendarStylistListItem

  /** What the salon answers: `highest_manual_order_index` (which may itself
      be nil or have raised), `ordered_stylist_names` and
      `has_manual_order?`. */
  datatype SalonFacts = SalonFacts(
    highestManualOrderIndex: Result<Option<int>>,
    orderedStylistNames: seq<string>,
    hasManualOrder: bool)

  /** `manual_position`: one past the salon's highest index for a new
      stylist, the stored index for a saved one. */
  function ManualPosition(stylist: Stylist, salon: SalonFacts): (r: Result<Option<int>>)
    ensures !stylist.newRecord ==> r == Ok(stylist.manualOrderIndex)
    ensures stylist.newRecord ==> (r.Ok? <==> salon.highestManualOrderIndex.Ok? && salon.highestManualOrderIndex.value.Some?)
    ensures stylist.newRecord && r.Ok? ==> r == Ok(Some(salon.highestManualOrderIndex.value.value + 1))
    ensures stylist.newRecord && salon.highestManualOrderIndex.Raise? ==> r == salon.highestManualOrderIndex
    ensures stylist.newRecord && salon.highestManualOrderIndex == Ok(None) ==> r == Raise(UndefinedMethodOnNil)
  {
    if stylist.newRecord then
      match salon.highestManualOrderIndex
      case Raise(e) => Raise(e)
      case Ok(None) => Raise(UndefinedMethodOnNil)
      case Ok(Some(highest)) => Ok(Some(highest + 1))
    else
      Ok(stylist.manualOrderIndex)
  }

  /** `alphabetical_position`: the same steps over the salon's name list. */
  method AlphabeticalPosition(stylist: Stylist, salon: SalonFacts) returns (position: nat)
    ensures position == Names.AlphabeticalRank(salon.orderedStylistNames, stylist.name)
    ensures position <= |salon.orderedStylistNames|
  {
    var names := salon.orderedStylistNames;
    position := Names.PositionAmong(names, stylist.name);
  }

  /** `order_index`: -1 for an inactive stylist, else chosen by
      `has_manual_order?` alone. */
  function OrderIndex(stylist: Stylist, salon: SalonFacts): (r: Result<Option<int>>)
    ensures !stylist.active ==> r == Ok(Some(-1))
    ensures stylist.active && salon.hasManualOrder ==> r == ManualPosition(stylist, salon)
    ensures stylist.active && !salon.hasManualOrder ==>
              && r.Ok? && r.value.Some?
              && 0 <= r.value.value <= |salon.orderedStylistNames|
              && r.value.value == Names.AlphabeticalRank(salon.orderedStylistNames, stylist.name)
  {
    if !stylist.active then Ok(Some(-1))
    else if salon.hasManualOrder then ManualPosition(stylist, salon)
    else Ok(Some(Names.AlphabeticalRank(salon.orderedStylistNames, stylist.name)))
  }

  /** The facts a salon reports when it computes them the way
      `CalendarStylistListItem` does. */
  function DerivedFacts(stylists: seq<Stylist>): SalonFacts {
    SalonFacts(
      CalendarStylistListItem.HighestManualOrderIndex(stylists),
      CalendarStylistListItem.OrderedStylistNames(stylists),
      CalendarStylistListItem.SalonHasManualOrder(stylists))
  }

  /** Both calculators give the same positions when the salon reports the
      facts derived from its stylists. */
  lemma AgreesWithCalendarStylistListItem(stylist: Stylist, stylists: seq<Stylist>)
    ensures ManualPosition(stylist, DerivedFacts(stylists)) == CalendarStylistListItem.ManualPosition(stylist, stylists)
    ensures OrderIndex(stylist, DerivedFacts(stylists)) == CalendarStylistListItem.OrderIndex(stylist, stylists)
  {
  }

  /** Reordering the salon's name list leaves every order index unchanged. */
  lemma OrderIndexIgnoresNameOrder(stylist: Stylist, salon: SalonFacts, reordered: seq<string>)
    requires multiset(reordered) == multiset(salon.orderedStylistNames)
    ensures OrderIndex(stylist, salon.(orderedStylistNames := reordered)) == OrderIndex(stylist, salon)
  {
    Names.RankPermutationInvariant(reordered, salon.orderedStylistNames, stylist.name);
  }
}
