/** The record rules of the stylist model that need no database: the name
    uniqueness check, the service lookups, `save_services`, `clean_values`,
    the formatted amounts, the `before_save` order-index update and the
    employment-type code. Stored rows are plain sequences. */
module StylistModel {
  import opened RubyValues
  import opened Records
  import CalendarStylistListItem

  // ---------------------------------------------------------------------
  // Name validation

  /** The message added to `name` when another stylist of the salon already
      has the name. */
  function DuplicateNameMessage(name: string): string {
    "A stylist with name \"" + name + "\" already exists."
  }

  predicate SameNameAndSalon(row: Stylist, name: string, salonId: Option<int>) {
    row.name == name && row.salonId == salonId
  }

  /** `Stylist.find_by_name_and_salon_id`: the first stored row with the name
      and salon, nil when there is none. */
  function FindByNameAndSalonId(rows: seq<Stylist>, name: string, salonId: Option<int>): (r: Option<Stylist>)
    ensures r.None? <==> forall i :: 0 <= i < |rows| ==> !SameNameAndSalon(rows[i], name, salonId)
    ensures r.Some? ==> exists i :: 0 <= i < |rows| && rows[i] == r.value && SameNameAndSalon(rows[i], name, salonId)
                          && forall j :: 0 <= j < i ==> !SameNameAndSalon(rows[j], name, salonId)
  {
    if rows == [] then None
    else if SameNameAndSalon(rows[0], name, salonId) then Some(rows[0])
    else
      var r := FindByNameAndSalonId(rows[1..], name, salonId);
      assert forall i :: 1 <= i < |rows| ==> rows[i] == rows[1..][i - 1];
      r
  }

  /** A stored row other than `model` with the model's name and salon. */
  predicate Clashes(row: Stylist, model: Stylist) {
    SameNameAndSalon(row, model.name, model.salonId) && row.id != model.id
  }

  /** The `validates_each :name` block: the errors it adds to `name`. */
  function NameErrors(model: Stylist, rows: seq<Stylist>): (errors: seq<string>)
    ensures errors == [] || errors == [DuplicateNameMessage(model.name)]
    ensures errors != [] ==> exists i :: 0 <= i < |rows| && Clashes(rows[i], model)
    ensures (forall i :: 0 <= i < |rows| ==> !Clashes(rows[i], model)) ==> errors == []
  {
    match FindByNameAndSalonId(rows, model.name, model.salonId)
    case Some(stylist) =>
      if stylist.id != model.id then [DuplicateNameMessage(model.name)] else []
    case None => []
  }

  /** No two stored stylists of a salon share a name: what the validation
      keeps true of the table. */
  ghost predicate UniqueNames(rows: seq<Stylist>) {
    forall i, j :: 0 <= i < j < |rows| && rows[i].salonId == rows[j].salonId ==> rows[i].name != rows[j].name
  }

  /** When names are unique per salon, the validation fails exactly when some
      other stylist of the salon has the name. */
  lemma NameErrorsExact(model: Stylist, rows: seq<Stylist>)
    requires UniqueNames(rows)
    ensures NameErrors(model, rows) != [] <==> exists i :: 0 <= i < |rows| && Clashes(rows[i], model)
  {
    if i :| 0 <= i < |rows| && Clashes(rows[i], model) {
      var found := FindByNameAndSalonId(rows, model.name, model.salonId);
      var k :| 0 <= k < |rows| && rows[k] == found.value && SameNameAndSalon(rows[k], model.name, model.salonId)
                && forall j :: 0 <= j < k ==> !SameNameAndSalon(rows[j], model.name, model.salonId);
      assert k == i;
    }
  }

  // ---------------------------------------------------------------------
  // Stylist services

  /** A salon service: what `salon.services.active` reads. */
  datatype Service = Service(id: int, active: bool)

  /** A stored `stylist_service` row. */
  datatype StylistService = StylistService(stylistId: int, serviceId: int, lengthInMinutes: Option<int>, price: Option<int>)

  /** What `service_length` and `service_price` show: the stored value, or
      the empty string when the stylist does not offer the service. */
  datatype Shown = Stored(value: Option<int>) | EmptyString

  predicate OffersService(row: StylistService, stylistId: int, serviceId: int) {
    row.stylistId == stylistId && row.serviceId == serviceId
  }

  /** `stylist_services.find_by_service_id`: the stylist's first row for the
      service. */
  function FindService(rows: seq<StylistService>, stylistId: int, serviceId: int): (r: Option<StylistService>)
    ensures r.None? <==> forall i :: 0 <= i < |rows| ==> !OffersService(rows[i], stylistId, serviceId)
    ensures r.Some? ==> exists i :: 0 <= i < |rows| && rows[i] == r.value && OffersService(rows[i], stylistId, serviceId)
                          && forall j :: 0 <= j < i ==> !OffersService(rows[j], stylistId, serviceId)
  {
    if rows == [] then None
    else if OffersService(rows[0], stylistId, serviceId) then Some(rows[0])
    else
      var r := FindService(rows[1..], stylistId, serviceId);
      assert forall i :: 1 <= i < |rows| ==> rows[i] == rows[1..][i - 1];
      r
  }

  lemma {:induction false} FindServiceConcat(a: seq<StylistService>, b: seq<StylistService>, stylistId: int, serviceId: int)
    ensures FindService(a + b, stylistId, serviceId) ==
              if FindService(a, stylistId, serviceId).Some? then FindService(a, stylistId, serviceId)
              else FindService(b, stylistId, serviceId)
  {
    if a == [] {
      assert a + b == b;
    } else {
      assert (a + b)[0] == a[0];
      assert (a + b)[1..] == a[1..] + b;
      FindServiceConcat(a[1..], b, stylistId, serviceId);
    }
  }

  /** `service_length`. */
  function ServiceLength(rows: seq<StylistService>, stylistId: int, serviceId: int): (r: Shown)
    ensures r.EmptyString? <==> forall i :: 0 <= i < |rows| ==> !OffersService(rows[i], stylistId, serviceId)
    ensures r.Stored? ==> exists i :: 0 <= i < |rows| && OffersService(rows[i], stylistId, serviceId) && rows[i].lengthInMinutes == r.value
  {
    match FindService(rows, stylistId, serviceId)
    case Some(ss) => Stored(ss.lengthInMinutes)
    case None => EmptyString
  }

  /** `service_price`. */
  function ServicePrice(rows: seq<StylistService>, stylistId: int, serviceId: int): (r: Shown)
    ensures r.EmptyString? <==> forall i :: 0 <= i < |rows| ==> !OffersService(rows[i], stylistId, serviceId)
    ensures r.Stored? ==> exists i :: 0 <= i < |rows| && OffersService(rows[i], stylistId, serviceId) && rows[i].price == r.value
  {
    match FindService(rows, stylistId, serviceId)
    case Some(ss) => Stored(ss.price)
    case None => EmptyString
  }

  /** `salon.services.active`. */
  function ActiveServices(services: seq<Service>): (r: seq<Service>)
    ensures |r| <= |services|
    ensures forall s :: s in r <==> s in services && s.active
  {
    if services == [] then []
    else (if services[0].active then [services[0]] else []) + ActiveServices(services[1..])
  }

  /** The rows left after `stylist_services.destroy_all`: those of other
      stylists. */
  function WithoutStylist(rows: seq<StylistService>, stylistId: int): (r: seq<StylistService>)
    ensures forall row :: row in r <==> row in rows && row.stylistId != stylistId
  {
    if rows == [] then []
    else (if rows[0].stylistId != stylistId then [rows[0]] else []) + WithoutStylist(rows[1..], stylistId)
  }

  /** The test inside `save_services`: a row is created when the length or the price
      given for the i-th active service is positive (past the end of the
      parameter list the value is nil, and `nil.to_i` is 0). */
  predicate Wanted(lengths: seq<int>, prices: seq<int>, i: nat) {
    ToI(At(lengths, i)) > 0 || ToI(At(prices, i)) > 0
  }

  /** The row `StylistService.create!` makes for the i-th active service. */
  function RowFor(stylistId: int, services: seq<Service>, lengths: seq<int>, prices: seq<int>, i: nat): StylistService
    requires i < |services|
  {
    StylistService(stylistId, services[i].id, At(lengths, i), At(prices, i))
  }

  /** The rows created for the first `n` active services, in order. */
  function CreatedRows(stylistId: int, services: seq<Service>, lengths: seq<int>, prices: seq<int>, n: nat): (r: seq<StylistService>)
    requires n <= |services|
    ensures |r| <= n
  {
    if n == 0 then []
    else
      CreatedRows(stylistId, services, lengths, prices, n - 1)
      + (if Wanted(lengths, prices, n - 1) then [RowFor(stylistId, services, lengths, prices, n - 1)] else [])
  }

  /** Every created row belongs to the stylist whose services are saved. */
  lemma {:induction false} CreatedRowsOwnedByStylist(stylistId: int, services: seq<Service>, lengths: seq<int>, prices: seq<int>, n: nat)
    requires n <= |services|
    ensures forall k :: 0 <= k < |CreatedRows(stylistId, services, lengths, prices, n)| ==>
              CreatedRows(stylistId, services, lengths, prices, n)[k].stylistId == stylistId
  {
    if n > 0 {
      CreatedRowsOwnedByStylist(stylistId, services, lengths, prices, n - 1);
    }
  }

  /** A row is created exactly for the active services whose length or
      price is positive, and it carries that length and price. */
  lemma {:induction false} CreatedRowsExact(stylistId: int, services: seq<Service>, lengths: seq<int>, prices: seq<int>, n: nat, row: StylistService)
    requires n <= |services|
    ensures row in CreatedRows(stylistId, services, lengths, prices, n) <==>
              exists i :: 0 <= i < n && Wanted(lengths, prices, i) && row == RowFor(stylistId, services, lengths, prices, i)
  {
    if n > 0 {
      CreatedRowsExact(stylistId, services, lengths, prices, n - 1, row);
    }
  }

  /** Service ids are distinct: they are primary keys. */
  ghost predicate DistinctIds(services: seq<Service>) {
    forall i, j :: 0 <= i < j < |services| ==> services[i].id != services[j].id
  }

  lemma {:induction false} FindInCreatedRows(stylistId: int, services: seq<Service>, lengths: seq<int>, prices: seq<int>, n: nat, i: nat)
    requires DistinctIds(services)
    requires i < n <= |services|
    ensures FindService(CreatedRows(stylistId, services, lengths, prices, n), stylistId, services[i].id) ==
              if Wanted(lengths, prices, i) then Some(RowFor(stylistId, services, lengths, prices, i)) else None
  {
    var id := services[i].id;
    var previous := CreatedRows(stylistId, services, lengths, prices, n - 1);
    var added := if Wanted(lengths, prices, n - 1) then [RowFor(stylistId, services, lengths, prices, n - 1)] else [];
    FindServiceConcat(previous, added, stylistId, id);
    if i == n - 1 {
      forall k | 0 <= k < |previous|
        ensures !OffersService(previous[k], stylistId, id)
      {
        CreatedRowsExact(stylistId, services, lengths, prices, n - 1, previous[k]);
      }
    } else {
      FindInCreatedRows(stylistId, services, lengths, prices, n - 1, i);
    }
  }

  /** Reading back after `save_services`: for every active service the
      stylist shows the length and price just saved, or the empty string
      when neither was positive. */
  lemma SavedServicesReadBack(before: seq<StylistService>, stylistId: int, services: seq<Service>, lengths: seq<int>, prices: seq<int>, i: nat)
    requires DistinctIds(services)
    requires i < |services|
    ensures var after := WithoutStylist(before, stylistId) + CreatedRows(stylistId, services, lengths, prices, |services|);
            && ServiceLength(after, stylistId, services[i].id) == (if Wanted(lengths, prices, i) then Stored(At(lengths, i)) else EmptyString)
            && ServicePrice(after, stylistId, services[i].id) == (if Wanted(lengths, prices, i) then Stored(At(prices, i)) else EmptyString)
  {
    var kept := WithoutStylist(before, stylistId);
    var created := CreatedRows(stylistId, services, lengths, prices, |services|);
    assert forall k :: 0 <= k < |kept| ==> kept[k] in kept;
    FindServiceConcat(kept, created, stylistId, services[i].id);
    FindInCreatedRows(stylistId, services, lengths, prices, |services|, i);
  }

  /** The `stylist_service` table. */
  class StylistServiceTable {
    var rows: seq<StylistService>

    /** `save_services(lengths, prices)`: drop every row of the stylist, then
        create one row per active service whose length or price is positive. */
    method SaveServices(stylistId: int, salonServices: seq<Service>, lengths: seq<int>, prices: seq<int>)
      modifies this`rows
      ensures var services := ActiveServices(salonServices);
              rows == WithoutStylist(old(rows), stylistId) + CreatedRows(stylistId, services, lengths, prices, |services|)
    {
      rows := WithoutStylist(rows, stylistId);
      ghost var kept := rows;
      var services := ActiveServices(salonServices);
      var i := 0;
      while i < |services|
        invariant 0 <= i <= |services|
        invariant rows == kept + CreatedRows(stylistId, services, lengths, prices, i)
      {
        assert CreatedRows(stylistId, services, lengths, prices, i + 1) ==
                 CreatedRows(stylistId, services, lengths, prices, i)
                 + (if Wanted(lengths, prices, i) then [RowFor(stylistId, services, lengths, prices, i)] else []);
        if ToI(At(lengths, i)) > 0 || ToI(At(prices, i)) > 0 {
          rows := rows + [StylistService(stylistId, services[i].id, At(lengths, i), At(prices, i))];
        }
        i := i + 1;
      }
    }
  }

  // ---------------------------------------------------------------------
  // Formatted amounts

  /** What a `formatted_*` helper returns: the empty string, or the amount
      as `number_with_precision(amount, precision: 2)` renders it. */
  datatype Formatted = Blank | TwoDecimals(amount: real)

  /** The shared gate of `formatted_rent` and the two
      `formatted_*_commission_rate` helpers: `value > 0` raises on nil. */
  function FormattedAmount(value: Option<real>): (r: Result<Formatted>)
    ensures r.Raise? <==> value.None?
    ensures r.Raise? ==> r.error == UndefinedMethodOnNil
    ensures r == Ok(Blank) <==> value.Some? && value.value <= 0.0
    ensures r.Ok? && r.value.TwoDecimals? ==> r.value.amount == value.value && r.value.amount > 0.0
  {
    match value
    case None => Raise(UndefinedMethodOnNil)
    case Some(v) => if v > 0.0 then Ok(TwoDecimals(v)) else Ok(Blank)
  }

  /** A stylist's employment type. */
  datatype EmploymentType = EmploymentType(code: string)

  // ---------------------------------------------------------------------
  // The stylist record

  class StylistRecord {
    var id: Option<int>
    var name: string
    var salonId: Option<int>
    var active: bool
    var roles: seq<Option<string>>
    var newRecord: bool
    var manualOrderIndex: Option<int>
    var cachedOrderIndex: Option<int>
    var rent: Option<real>
    var serviceCommissionRate: Option<real>
    var retailCommissionRate: Option<real>
    var employmentType: Option<EmploymentType>

    /** The attributes the ordering calculator reads. */
    function Attributes(): Stylist
      reads this
    {
      Stylist(id, name, salonId, active, roles, manualOrderIndex, newRecord)
    }

    function FormattedRent(): Result<Formatted>
      reads this
    {
      FormattedAmount(rent)
    }

    function FormattedServiceCommissionRate(): Result<Formatted>
      reads this
    {
      FormattedAmount(serviceCommissionRate)
    }

    function FormattedRetailCommissionRate(): Result<Formatted>
      reads this
    {
      FormattedAmount(retailCommissionRate)
    }

    /** `stylist_employment_type_code`. */
    function StylistEmploymentTypeCode(): (code: string)
      reads this
      ensures employmentType.None? ==> code == ""
      ensures employmentType.Some? ==> code == employmentType.value.code
    {
      match employmentType
      case None => ""
      case Some(t) => t.code
    }

    /** `clean_values` as written: `rent` defaults to 0, but the two
        conditions on the commission rates assign nil instead of comparing
        with it, so both rates end up nil and their bodies never run. */
    method CleanValues()
      modifies this`rent, this`serviceCommissionRate, this`retailCommissionRate
      ensures rent == if old(rent).None? then Some(0.0) else old(rent)
      ensures serviceCommissionRate.None? && retailCommissionRate.None?
      ensures FormattedRent().Ok?
      ensures FormattedServiceCommissionRate() == Raise(UndefinedMethodOnNil)
      ensures FormattedRetailCommissionRate() == Raise(UndefinedMethodOnNil)
    {
      if rent.None? {
        rent := Some(0.0);
      }
      // `if self.service_commission_rate = nil`: the assignment's value, nil,
      // is the condition, so the branch that would set 0 is never taken.
      serviceCommissionRate := None;
      // The same for `if self.retail_commission_rate = nil`.
      retailCommissionRate := None;
    }

    /** `clean_values` as evidently intended: each nil amount defaults to 0
        and every other amount is kept. */
    method CleanValuesAsIntended()
      modifies this`rent, this`serviceCommissionRate, this`retailCommissionRate
      ensures rent == if old(rent).None? then Some(0.0) else old(rent)
      ensures serviceCommissionRate == if old(serviceCommissionRate).None? then Some(0.0) else old(serviceCommissionRate)
      ensures retailCommissionRate == if old(retailCommissionRate).None? then Some(0.0) else old(retailCommissionRate)
      ensures FormattedRent().Ok? && FormattedServiceCommissionRate().Ok? && FormattedRetailCommissionRate().Ok?
    {
      if rent.None? {
        rent := Some(0.0);
      }
      if serviceCommissionRate.None? {
        serviceCommissionRate := Some(0.0);
      }
      if retailCommissionRate.None? {
        retailCommissionRate := Some(0.0);
      }
    }

    /** `make_sure_self_gets_correct_order_index`, run before every save:
        `cached_order_index` becomes `order_index`, and in a salon with manual
        order `manual_order_index` becomes `manual_position`. An exception
        aborts the callback where it is raised. */
    method MakeSureSelfGetsCorrectOrderIndex(stylists: seq<Stylist>) returns (outcome: Result<()>)
      modifies this`cachedOrderIndex, this`manualOrderIndex
      ensures var order := CalendarStylistListItem.OrderIndex(old(Attributes()), stylists);
              order.Raise? ==> outcome == Raise(order.error)
                               && cachedOrderIndex == old(cachedOrderIndex) && manualOrderIndex == old(manualOrderIndex)
      ensures var order := CalendarStylistListItem.OrderIndex(old(Attributes()), stylists);
              order.Ok? ==> cachedOrderIndex == order.value
      ensures var order := CalendarStylistListItem.OrderIndex(old(Attributes()), stylists);
              order.Ok? && !CalendarStylistListItem.SalonHasManualOrder(stylists) ==>
                outcome == Ok(()) && manualOrderIndex == old(manualOrderIndex)
      ensures var order := CalendarStylistListItem.OrderIndex(old(Attributes()), stylists);
              var manual := CalendarStylistListItem.ManualPosition(old(Attributes()), stylists);
              order.Ok? && CalendarStylistListItem.SalonHasManualOrder(stylists) ==>
                && outcome == (if manual.Ok? then Ok(()) else Raise(manual.error))
                && manualOrderIndex == (if manual.Ok? then manual.value else old(manualOrderIndex))
      ensures outcome.Ok? && active && CalendarStylistListItem.SalonHasManualOrder(stylists) ==>
                cachedOrderIndex == manualOrderIndex
      ensures outcome.Ok? && !active ==> cachedOrderIndex == Some(-1)
    {
      var self := Attributes();
      var order := CalendarStylistListItem.OrderIndex(self, stylists);
      if order.Raise? {
        return Raise(order.error);
      }
      cachedOrderIndex := order.value;
      if CalendarStylistListItem.SalonHasManualOrder(stylists) {
        var manual := CalendarStylistListItem.ManualPosition(self, stylists);
        if manual.Raise? {
          return Raise(manual.error);
        }
        manualOrderIndex := manual.value;
      }
      return Ok(());
    }
  }

  /** A concrete run of `clean_values` as written: a stylist with a 40%
      service commission ends up with none, and its formatted rate raises. */
  method CleanValuesDropsRate() returns (before: Option<real>, after: Option<real>, shown: Result<Formatted>)
    ensures before == Some(0.4) && after == None
    ensures shown == Raise(UndefinedMethodOnNil)
  {
    var stylist := new StylistRecord;
    stylist.serviceCommissionRate := Some(0.4);
    before := stylist.serviceCommissionRate;
    stylist.CleanValues();
    after := stylist.serviceCommissionRate;
    shown := stylist.FormattedServiceCommissionRate();
  }
}
