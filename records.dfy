/** The stylist row as the ordering code and the name validation read it. */
module Records {
  import opened RubyValues

  /** One stylist of a salon: its identity, its salon, whether it is active,
      the codes of its user's roles (one entry per `user_role` row, nil where
      the joined role has no code), its nullable manual index, and whether it
      has not been saved yet (`new_record?`). */
  datatype Stylist = Stylist(
    id: Option<int>,
    name: string,
    salonId: Option<int>,
    active: bool,
    roles: seq<Option<string>>,
    manualOrderIndex: Option<int>,
    newRecord: bool)

  const Receptionist := "RECEPTIONIST"

  /** The `non_receptionist` filter on one joined role row: the code is not
      RECEPTIONIST, or it is NULL. */
  predicate KeptRole(code: Option<string>) {
    code.None? || code.value != Receptionist
  }

  /** How many of the roles pass the filter. */
  function KeptRoles(roles: seq<Option<string>>): (n: nat)
    ensures n <= |roles|
    ensures n > 0 <==> exists k :: 0 <= k < |roles| && KeptRole(roles[k])
  {
    if roles == [] then 0
    else
      var rest := KeptRoles(roles[1..]);
      assert forall k :: 1 <= k < |roles| ==> roles[k] == roles[1..][k - 1];
      (if KeptRole(roles[0]) then 1 else 0) + rest
  }

  /** How many rows the `active` and `non_receptionist` scopes give for one
      stylist: none when inactive; one when its user has no role (the LEFT
      JOIN yields one row of NULLs); otherwise one per role that passes the
      filter. */
  function CalendarRows(s: Stylist): (n: nat)
    ensures !s.active ==> n == 0
    ensures s.active && s.roles == [] ==> n == 1
    ensures s.active && s.roles != [] ==> n == KeptRoles(s.roles)
  {
    if !s.active then 0 else if s.roles == [] then 1 else KeptRoles(s.roles)
  }

  /** The stylists that get a calendar column. A stylist whose user holds
      RECEPTIONIST and some other role still gets one; only a user all of
      whose roles are RECEPTIONIST is dropped. */
  predicate OnCalendar(s: Stylist) {
    CalendarRows(s) > 0
  }

  lemma OnCalendarExact(s: Stylist)
    ensures OnCalendar(s) <==>
              s.active && (s.roles == [] || exists k :: 0 <= k < |s.roles| && KeptRole(s.roles[k]))
  {
  }

  /** A receptionist who is also a manager stays on the calendar. */
  lemma ReceptionistManagerOnCalendar(s: Stylist)
    requires s.active && s.roles == [Some(Receptionist), Some("MANAGER")]
    ensures OnCalendar(s)
  {
    assert KeptRole(s.roles[1]);
  }
}
