/** The calendar-ordering calculator that derives the salon facts itself
    from the salon's stylists. The stylist's own `manual_position` and
    `alphabetical_position`, which `order_index` calls, are taken to be this
    calculator's. */
module CalendarStylistListItem {
  import opened RubyValues
  import opened Records
  import Names

  /** `salon.stylists.map(&:manual_order_index)`. */
  function ManualOrderIndices(stylists: seq<Stylist>): (r: seq<Option<int>>)
    ensures |r| == |stylists|
    ensures forall i :: 0 <= i < |r| ==> r[i] == stylists[i].manualOrderIndex
  {
    seq(|stylists|, i requires 0 <= i < |stylists| => stylists[i].manualOrderIndex)
  }

  /** Every stylist of the salon, active or not, has a manual index. */
  predicate AllIndicesSet(stylists: seq<Stylist>) {
    forall i :: 0 <= i < |stylists| ==> stylists[i].manualOrderIndex.Some?
  }

  /** `highest_manual_order_index`: the maximum over all of the salon's
      stylists; nil when none has an index, ArgumentError when some have one
      and some do not. */
  function HighestManualOrderIndex(stylists: seq<Stylist>): (r: Result<Option<int>>)
    ensures r.Ok? && r.value.Some? <==> |stylists| > 0 && AllIndicesSet(stylists)
    ensures r.Ok? && r.value.Some? ==>
              && (forall i :: 0 <= i < |stylists| ==> stylists[i].manualOrderIndex.value <= r.value.value)
              && (exists i :: 0 <= i < |stylists| && stylists[i].manualOrderIndex == r.value)
    ensures r.Raise? <==>
              && (exists i :: 0 <= i < |stylists| && stylists[i].manualOrderIndex.Some?)
              && (exists j :: 0 <= j < |stylists| && stylists[j].manualOrderIndex.None?)
    ensures r.Raise? ==> r.error == ComparisonWithNil
    ensures r == Ok(None) <==> forall i :: 0 <= i < |stylists| ==> stylists[i].manualOrderIndex.None?
  {
    var indices := ManualOrderIndices(stylists);
    var r := ArrayMax(indices);
    assert forall i :: 0 <= i < |stylists| ==> indices[i] == stylists[i].manualOrderIndex;
    assert |stylists| > 0 && !AllIndicesSet(stylists) && r.Ok? ==> r.value.None? by {
      if |stylists| > 0 && !AllIndicesSet(stylists) && r.Ok? {
        var j :| 0 <= j < |stylists| && stylists[j].manualOrderIndex.None?;
        assert indices[j].None?;
      }
    }
    r
  }

  /** `salon.stylists.sum(:manual_order_index)`: SQL's SUM skips NULLs, and
      an empty sum is 0. */
  function ManualIndexSum(stylists: seq<Stylist>): (sum: int)
    ensures (forall i :: 0 <= i < |stylists| ==> stylists[i].manualOrderIndex.None?) ==> sum == 0
    ensures sum > 0 ==> exists i :: 0 <= i < |stylists| && ToI(stylists[i].manualOrderIndex) > 0
  {
    if stylists == [] then 0
    else
      var rest := ManualIndexSum(stylists[1..]);
      assert forall i :: 1 <= i < |stylists| ==> stylists[i] == stylists[1..][i - 1];
      ToI(stylists[0].manualOrderIndex) + rest
  }

  /** Adding a stylist adds its index to the sum, nothing when it is nil. */
  lemma {:induction false} ManualIndexSumAppend(stylists: seq<Stylist>, s: Stylist)
    ensures ManualIndexSum(stylists + [s]) == ManualIndexSum(stylists) + ToI(s.manualOrderIndex)
  {
    if stylists == [] {
      assert stylists + [s] == [s];
      assert [s][1..] == [];
    } else {
      assert (stylists + [s])[1..] == stylists[1..] + [s];
      ManualIndexSumAppend(stylists[1..], s);
    }
  }

  /** `salon_has_manual_order?`: the SUM of the indices is positive. */
  predicate SalonHasManualOrder(stylists: seq<Stylist>)
    ensures SalonHasManualOrder(stylists) ==>
              exists i :: 0 <= i < |stylists| && stylists[i].manualOrderIndex.Some? && stylists[i].manualOrderIndex.value > 0
  {
    ManualIndexSum(stylists) > 0
  }

  lemma {:induction false} SumOfNonPositive(stylists: seq<Stylist>)
    requires forall i :: 0 <= i < |stylists| ==> ToI(stylists[i].manualOrderIndex) <= 0
    ensures ManualIndexSum(stylists) <= 0
  {
    if stylists != [] {
      SumOfNonPositive(stylists[1..]);
    }
  }

  lemma {:induction false} SumOfNonNegative(stylists: seq<Stylist>)
    requires forall i :: 0 <= i < |stylists| ==> ToI(stylists[i].manualOrderIndex) >= 0
    ensures ManualIndexSum(stylists) >= 0
    ensures ManualIndexSum(stylists) > 0 <==> exists i :: 0 <= i < |stylists| && ToI(stylists[i].manualOrderIndex) > 0
  {
    if stylists != [] {
      SumOfNonNegative(stylists[1..]);
      assert forall i :: 1 <= i < |stylists| ==> stylists[i] == stylists[1..][i - 1];
    }
  }

  /** A salon in which no stylist has a positive index has no manual order. */
  lemma NoPositiveIndexNoManualOrder(stylists: seq<Stylist>)
    requires forall i :: 0 <= i < |stylists| ==> stylists[i].manualOrderIndex.None? || stylists[i].manualOrderIndex.value <= 0
    ensures !SalonHasManualOrder(stylists)
  {
    SumOfNonPositive(stylists);
  }

  /** Without negative indices, manual order means that some stylist has a
      positive index. */
  lemma ManualOrderIffSomePositive(stylists: seq<Stylist>)
    requires forall i :: 0 <= i < |stylists| ==> stylists[i].manualOrderIndex.None? || stylists[i].manualOrderIndex.value >= 0
    ensures SalonHasManualOrder(stylists) <==>
              exists i :: 0 <= i < |stylists| && stylists[i].manualOrderIndex.Some? && stylists[i].manualOrderIndex.value > 0
  {
    SumOfNonNegative(stylists);
  }

  /** A negative index can cancel a positive one: indices 2 and -3 give no
      manual order although one stylist has a positive index. */
  lemma NegativeIndexCancelsPositive(a: Stylist, b: Stylist)
    requires a.manualOrderIndex == Some(2) && b.manualOrderIndex == Some(-3)
    ensures !SalonHasManualOrder([a, b])
  {
    assert [a, b][1..] == [b];
    assert [b][1..] == [];
    assert ManualIndexSum([b]) == -3;
    assert ManualIndexSum([a, b]) == 2 + ManualIndexSum([b]);
  }

  /** `n` copies of a name: the rows one stylist contributes. */
  function Copies(name: string, n: nat): (r: seq<string>)
    ensures |r| == n
    ensures multiset(r)[name] == n
    ensures forall m :: m != name ==> multiset(r)[m] == 0
  {
    if n == 0 then [] else [name] + Copies(name, n - 1)
  }

  /** How many rows of the calendar query carry the name. */
  function NameRows(stylists: seq<Stylist>, name: string): (n: nat)
    ensures n > 0 <==> exists i :: 0 <= i < |stylists| && OnCalendar(stylists[i]) && stylists[i].name == name
  {
    if stylists == [] then 0
    else
      var rest := NameRows(stylists[1..], name);
      assert forall i :: 1 <= i < |stylists| ==> stylists[i] == stylists[1..][i - 1];
      (if stylists[0].name == name then CalendarRows(stylists[0]) else 0) + rest
  }

  /** `ordered_stylist_names`: one name per row of the `active` and
      `non_receptionist` query, so a stylist whose user has several
      non-receptionist roles is listed once per such role. The SQL `order`
      clause only permutes the rows, and the position computed from them does
      not depend on their order (`Names.RankPermutationInvariant`), so they
      are kept in snapshot order. */
  function OrderedStylistNames(stylists: seq<Stylist>): (r: seq<string>)
    ensures forall n :: multiset(r)[n] == NameRows(stylists, n)
    ensures forall n :: n in r <==> exists i :: 0 <= i < |stylists| && OnCalendar(stylists[i]) && stylists[i].name == n
  {
    if stylists == [] then []
    else
      var rest := OrderedStylistNames(stylists[1..]);
      var r := Copies(stylists[0].name, CalendarRows(stylists[0])) + rest;
      assert forall n :: multiset(r)[n] == NameRows(stylists, n) by {
        forall n
          ensures multiset(r)[n] == NameRows(stylists, n)
        {
          assert multiset(r) == multiset(Copies(stylists[0].name, CalendarRows(stylists[0]))) + multiset(rest);
        }
      }
      assert forall n :: n in r <==> multiset(r)[n] > 0;
      r
  }

  /** Two calendar stylists named "alice" give two entries. */
  lemma DuplicateNamesCounted(a: Stylist, b: Stylist)
    requires a.active && b.active && a.roles == [] && b.roles == []
    requires a.name == "alice" && b.name == "alice"
    ensures multiset(OrderedStylistNames([a, b]))["alice"] == 2
  {
    assert [a, b][1..] == [b];
    assert [b][1..] == [];
  }

  /** A receptionist whose user also holds two other roles is listed twice. */
  lemma ExtraRolesRepeatName(a: Stylist)
    requires a.active && a.name == "dana"
    requires a.roles == [Some(Receptionist), Some("MANAGER"), None]
    ensures multiset(OrderedStylistNames([a]))["dana"] == 2
  {
    assert a.roles[1..] == [Some("MANAGER"), None];
    assert a.roles[1..][1..] == [None];
    assert a.roles[1..][1..][1..] == [];
    assert KeptRoles(a.roles[1..][1..][1..]) == 0;
    assert KeptRoles(a.roles[1..][1..]) == 1;
    assert KeptRoles(a.roles[1..]) == 2;
    assert !KeptRole(a.roles[0]);
    assert [a][1..] == [];
    assert NameRows([a], "dana") == CalendarRows(a);
  }

  /** `attribute_by_which_to_order_stylists`. */
  function AttributeByWhichToOrderStylists(stylists: seq<Stylist>): (column: string)
    ensures column == "stylist.manual_order_index" <==> SalonHasManualOrder(stylists)
    ensures column == "LOWER(stylist.name)" <==> !SalonHasManualOrder(stylists)
  {
    if SalonHasManualOrder(stylists) then "stylist.manual_order_index" else "LOWER(stylist.name)"
  }

  /** `manual_position`: a new stylist goes one past the highest index of all
      the salon's stylists; a saved one keeps its stored index (nil if it
      has none). A new stylist in a salon whose indices are all nil (or that
      has no stylists) raises on `nil + 1`. */
  function ManualPosition(stylist: Stylist, stylists: seq<Stylist>): (r: Result<Option<int>>)
    ensures !stylist.newRecord ==> r == Ok(stylist.manualOrderIndex)
    ensures stylist.newRecord ==> (r.Ok? <==> |stylists| > 0 && AllIndicesSet(stylists))
    ensures stylist.newRecord && r.Raise? ==>
              r.error == (if exists i :: 0 <= i < |stylists| && stylists[i].manualOrderIndex.Some?
                          then ComparisonWithNil else UndefinedMethodOnNil)
    ensures stylist.newRecord && r.Ok? ==>
              && r.value.Some?
              && (forall i :: 0 <= i < |stylists| ==> stylists[i].manualOrderIndex.value < r.value.value)
              && (exists i :: 0 <= i < |stylists| && stylists[i].manualOrderIndex == Some(r.value.value - 1))
  {
    if stylist.newRecord then
      match HighestManualOrderIndex(stylists)
      case Raise(e) => Raise(e)
      case Ok(None) => Raise(UndefinedMethodOnNil)
      case Ok(Some(highest)) => Ok(Some(highest + 1))
    else
      Ok(stylist.manualOrderIndex)
  }

  /** `alphabetical_position` over the salon's calendar names. */
  method AlphabeticalPosition(stylist: Stylist, stylists: seq<Stylist>) returns (position: nat)
    ensures position == Names.AlphabeticalRank(OrderedStylistNames(stylists), stylist.name)
    ensures position <= |OrderedStylistNames(stylists)|
  {
    var names := OrderedStylistNames(stylists);
    position := Names.PositionAmong(names, stylist.name);
  }

  /** `order_index`: -1 for an inactive stylist, else the manual position in
      a salon with manual order and the alphabetical position otherwise. */
  function OrderIndex(stylist: Stylist, stylists: seq<Stylist>): (r: Result<Option<int>>)
    ensures !stylist.active ==> r == Ok(Some(-1))
    ensures stylist.active && SalonHasManualOrder(stylists) ==> r == ManualPosition(stylist, stylists)
    ensures stylist.active && !SalonHasManualOrder(stylists) ==>
              && r.Ok? && r.value.Some?
              && 0 <= r.value.value <= |OrderedStylistNames(stylists)|
              && r.value.value == Names.AlphabeticalRank(OrderedStylistNames(stylists), stylist.name)
  {
    if !stylist.active then Ok(Some(-1))
    else if SalonHasManualOrder(stylists) then ManualPosition(stylist, stylists)
    else Ok(Some(Names.AlphabeticalRank(OrderedStylistNames(stylists), stylist.name)))
  }

  /** An active new stylist in a manually ordered salon whose stylists all
      have an index is placed after every one of them. */
  lemma NewStylistGoesLast(stylist: Stylist, stylists: seq<Stylist>)
    requires stylist.active && stylist.newRecord
    requires SalonHasManualOrder(stylists) && AllIndicesSet(stylists)
    ensures OrderIndex(stylist, stylists).Ok?
    ensures forall i :: 0 <= i < |stylists| ==>
              stylists[i].manualOrderIndex.value < OrderIndex(stylist, stylists).value.value
  {
  }

  /** In an alphabetically ordered salon, calendar stylists whose lowercased
      names are strictly ordered get strictly ordered positions. */
  lemma AlphabeticalOrderFollowsNames(a: Stylist, b: Stylist, stylists: seq<Stylist>)
    requires a.active && b.active && !SalonHasManualOrder(stylists)
    requires a.name in OrderedStylistNames(stylists)
    requires Names.Below(Names.Lower(a.name), Names.Lower(b.name))
    ensures OrderIndex(a, stylists).value.value < OrderIndex(b, stylists).value.value
  {
    Names.RankStrictlyMonotone(OrderedStylistNames(stylists), a.name, b.name);
  }
}
