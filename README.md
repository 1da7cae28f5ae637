# Salon calendar ordering, modelled in Dafny

A salon's calendar shows one column per stylist. Each stylist's column position, its `order_index`, comes from one of two nearly identical calculators:

- `CalendarStylistListItem` derives its salon facts from the salon's stylists.
- `Calendar` asks the salon for the same facts.

An inactive stylist gets -1. Otherwise the position depends on the salon's ordering mode:

- **Manual order:** a new stylist goes one past the highest manual index in the salon. A saved stylist keeps its stored index.
- **Alphabetical order:** the position is the stylist's index in the sorted, lowercased list of calendar names (one per row of the `active` and `non_receptionist` query). The stylist's own name is appended first if it is missing.

The stylist record also:

- validates that no other stylist of the salon has the same name;
- looks up the length and price of the services it offers;
- replaces its service rows in `save_services`;
- defaults a nil rent to 0 in `clean_values` and, as written, clears both commission rates (see Findings);
- shows positive amounts in the `formatted_*` helpers;
- recomputes its cached order index before every save.

The project has one module per source file, plus three shared modules:

- `RubyValues`: nil-able values, the two exceptions the code can raise, `Array#max`, `nil.to_i`, and `Array#[]` past the end.
- `Records`: the stylist row and the `active` and `non_receptionist` row counts.
- `Names`: `downcase`, `String#<=>`, `sort!`, `index`, and the closed form of the alphabetical position.

Modules: `CalendarStylistListItem` (calendar_stylist_list_item.rb), `Calendar` (calendar.rb), `StylistModel` (stylist.rb).

Ruby exceptions are modelled as values, not preconditions.

- `Array#max` over a mix of nil and Integer indices raises ArgumentError.
- `nil + 1` for a new stylist in a salon without indices raises NoMethodError.
- `nil > 0` in the `formatted_*` helpers raises NoMethodError.

What the key results say:

- **Alphabetical position, closed form.** `index` returns the first occurrence in a sorted list. So the alphabetical position equals the number of names whose lowercase form is strictly below the stylist's lowercased name. Ties between equal lowercased names therefore cannot change the result.
- **Order independence.** The same count shows that the SQL ordering of `ordered_stylist_names` cannot affect the position.
- **The two calculators agree.** `Calendar` gives the same results as `CalendarStylistListItem` when the salon answers with the facts `CalendarStylistListItem` derives.

Assumptions:

- `order_index` calls `@stylist.manual_position` and `@stylist.alphabetical_position`. Both are taken to delegate back to the same calculator.
- `Stylist#order_index`, `Stylist#manual_position` and `salon.has_manual_order?`, used by the `before_save` callback, are taken to be `CalendarStylistListItem`'s. The agreement lemma makes the choice of calculator immaterial provided the salon's three answers are the ones `Calendar.DerivedFacts` computes; a salon whose `has_manual_order?` used another test (say, "some index is positive", which differs for indices 2 and -3) would make the two disagree.
- The salon model, which defines `highest_manual_order_index`, `ordered_stylist_names` and `has_manual_order?` for `Calendar`, is not part of this model. Its answers are injected as the `Calendar.SalonFacts` value.

Facts about the code worth knowing:

- `salon_has_manual_order?` tests whether the SQL sum of all indices is positive, so negative indices can cancel positive ones (`CalendarStylistListItem.NegativeIndexCancelsPositive`).
- The highest index is taken over all of the salon's stylists, active or not, receptionist or not. The name list, by contrast, comes from the `active` and `non_receptionist` query.
- The `non_receptionist` scope LEFT JOINs the user's roles and keeps every row whose role code is not RECEPTIONIST or is NULL. A stylist whose user holds RECEPTIONIST and another role is still listed, once per non-receptionist role; only a user all of whose roles are RECEPTIONIST is dropped. The name list therefore counts rows, not stylists, and the count enters the alphabetical position.

## Model

| member | source | states |
|---|---|---|
| `Records.KeptRoles` | stylist.rb:7-11 | the number of roles passing `role.code != 'RECEPTIONIST' OR role.code IS NULL`, positive exactly when some role passes |
| `Records.CalendarRows` | stylist.rb:3-11 | the number of rows the `active` and `non_receptionist` scopes give for a stylist: none when inactive, one when its user has no role, else one per kept role; what this means for who is listed is `Records.OnCalendarExact` |
| `Records.OnCalendarExact` | stylist.rb:3-11 | a stylist is on the calendar exactly when it is active and its user has no role or some role other than RECEPTIONIST |
| `Records.ReceptionistManagerOnCalendar` | stylist.rb:7-11 | an active stylist whose user is both receptionist and manager stays on the calendar |
| `RubyValues.ArrayMax` | calendar_stylist_list_item.rb:27 | `max` is nil exactly when every index is nil (or there are none), raises exactly when nil and Integer indices are mixed, and otherwise is an index that is at least every index |
| `Names.Lower` | calendar_stylist_list_item.rb:15 | `downcase` keeps the length, leaves no ASCII capital, and changes only capitals into their small letters |
| `Names.LowerAll` | calendar_stylist_list_item.rb:15 | `map(&:downcase)` keeps the length and lowercases each entry in place |
| `Names.BelowProperPrefix` | calendar_stylist_list_item.rb:15 | under `<=>` a proper prefix comes before the longer string |
| `Names.BelowFirstDifference` | calendar_stylist_list_item.rb:15 | after a common prefix, `<=>` is decided by the first differing character, both ways |
| `Names.BelowTotal` | calendar_stylist_list_item.rb:15 | `<=>` on strings orders any two distinct names one way or the other |
| `Names.BelowTransitive` | calendar_stylist_list_item.rb:15 | `<=>` on strings is transitive |
| `Names.SortInPlace` | calendar_stylist_list_item.rb:15 | `sort!` leaves the array sorted and a permutation of what it held |
| `Names.FirstIndex` | calendar_stylist_list_item.rb:15 | `index` is nil exactly when the name is absent, otherwise the first position holding it |
| `Names.SortedFirstIndexIsCount` | calendar_stylist_list_item.rb:15 | in a sorted list, the first position of a name is the number of entries strictly below it |
| `Names.CountBelowPermutation` | calendar_stylist_list_item.rb:15 | the number of entries below a name is the same for any permutation of the list |
| `Names.WithName` | calendar_stylist_list_item.rb:14 | the working list always holds the name, starts with the salon's list, grows by one only when the name was absent, and never holds a second copy because of the append |
| `Names.AlphabeticalRank` | calendar_stylist_list_item.rb:15 | the closed form lies between 0 and the length of the salon's name list |
| `Names.RankWithName` | calendar_stylist_list_item.rb:14-15 | appending the stylist's own name does not change the count of names below it |
| `Names.RankPermutationInvariant` | calendar_stylist_list_item.rb:30-34 | the position does not depend on the order in which the salon lists its names |
| `Names.RankStrictlyMonotone` | calendar_stylist_list_item.rb:15 | a listed stylist whose lowercased name is below another's gets a strictly smaller position |
| `Names.PositionAmong` | calendar_stylist_list_item.rb:13-15 | append-if-missing, lowercase, sort in place and index always find the name, and return the number of lowercased names strictly below the stylist's |
| `Names.BobSortsSecond` | calendar_stylist_list_item.rb:12-16 | "Bob" among "alice" and "carol" gets position 1 |
| `CalendarStylistListItem.HighestManualOrderIndex` | calendar_stylist_list_item.rb:26-28 | the highest index exists exactly when the salon has stylists and all have an index, and it is then the maximum over all of them; it raises ArgumentError exactly when some stylists have an index and some do not; it is nil exactly when no stylist has one |
| `CalendarStylistListItem.ManualIndexSum` | calendar_stylist_list_item.rb:41 | SQL SUM skips NULLs: a salon with no indices (or no stylists) sums to 0, and a positive sum needs some positive index |
| `CalendarStylistListItem.ManualIndexSumAppend` | calendar_stylist_list_item.rb:41 | one more stylist adds its index to the sum, and nothing when its index is nil |
| `CalendarStylistListItem.SalonHasManualOrder` | calendar_stylist_list_item.rb:40-42 | manual order needs some stylist with a positive index |
| `CalendarStylistListItem.NoPositiveIndexNoManualOrder` | calendar_stylist_list_item.rb:40-42 | a salon with no positive index has no manual order |
| `CalendarStylistListItem.ManualOrderIffSomePositive` | calendar_stylist_list_item.rb:40-42 | without negative indices, manual order holds exactly when some stylist has a positive index |
| `CalendarStylistListItem.NegativeIndexCancelsPositive` | calendar_stylist_list_item.rb:40-42 | indices 2 and -3 give no manual order although one is positive |
| `CalendarStylistListItem.NameRows` | calendar_stylist_list_item.rb:30-34 | some query row carries the name exactly when some calendar stylist has it |
| `CalendarStylistListItem.OrderedStylistNames` | calendar_stylist_list_item.rb:30-34 | each name occurs exactly as often as the query has rows for it (one per kept role of each active stylist with that name); a name is listed exactly when some calendar stylist has it |
| `CalendarStylistListItem.DuplicateNamesCounted` | calendar_stylist_list_item.rb:30-34 | two calendar stylists named "alice" give two entries |
| `CalendarStylistListItem.ExtraRolesRepeatName` | calendar_stylist_list_item.rb:30-34 | a stylist with roles RECEPTIONIST, MANAGER and one without a code is listed twice |
| `CalendarStylistListItem.AttributeByWhichToOrderStylists` | calendar_stylist_list_item.rb:36-38 | the column is `stylist.manual_order_index` exactly when the salon has manual order, else `LOWER(stylist.name)` |
| `CalendarStylistListItem.ManualPosition` | calendar_stylist_list_item.rb:8-10 | a saved stylist keeps its stored index; a new one succeeds exactly when the salon has stylists that all have an index, and then lands one past the highest of them; otherwise it raises ArgumentError when some stylist has an index and NoMethodError (`nil + 1`) when none has |
| `CalendarStylistListItem.AlphabeticalPosition` | calendar_stylist_list_item.rb:12-16 | the position is the number of calendar names whose lowercase is strictly below the stylist's, at most the list's length |
| `CalendarStylistListItem.OrderIndex` | calendar_stylist_list_item.rb:18-22 | -1 for an inactive stylist whatever the salon; for an active one the manual position under manual order, else the closed-form alphabetical position |
| `CalendarStylistListItem.NewStylistGoesLast` | calendar_stylist_list_item.rb:8-22 | an active new stylist in a manually ordered salon comes after every stylist of the salon |
| `CalendarStylistListItem.AlphabeticalOrderFollowsNames` | calendar_stylist_list_item.rb:12-22 | in an alphabetical salon, strictly ordered lowercased names give strictly ordered order indices |
| `Calendar.ManualPosition` | calendar.rb:8-10 | a saved stylist keeps its stored index; a new one gets the salon's highest index plus one, passes on the exception when that raised, and raises NoMethodError (`nil + 1`) when it is nil |
| `Calendar.AlphabeticalPosition` | calendar.rb:12-16 | the position is the number of the salon's names whose lowercase is strictly below the stylist's, at most the list's length |
| `Calendar.OrderIndex` | calendar.rb:18-22 | -1 for an inactive stylist; for an active one chosen by `has_manual_order?` alone |
| `Calendar.AgreesWithCalendarStylistListItem` | calendar.rb:8-22 | given the facts the other calculator derives, both calculators give the same manual position and order index |
| `Calendar.OrderIndexIgnoresNameOrder` | calendar.rb:13-15 | any reordering of the salon's name list leaves the order index unchanged |
| `StylistModel.FindByNameAndSalonId` | stylist.rb:34 | nil exactly when no stored stylist has the name and salon, otherwise the first that does |
| `StylistModel.NameErrors` | stylist.rb:33-38 | at most the one duplicate-name message; an error only when some stylist with the name and salon has a different id; none when there is no such stylist |
| `StylistModel.NameErrorsExact` | stylist.rb:33-38 | while names are unique per salon, the error is added exactly when another stylist of the salon has the name |
| `StylistModel.FindService` | stylist.rb:40-48 | `find_by_service_id` is nil exactly when the stylist has no row for the service, otherwise its first such row |
| `StylistModel.ServiceLength` | stylist.rb:40-43 | "" exactly when the stylist has no row for the service, otherwise a stored row's length |
| `StylistModel.ServicePrice` | stylist.rb:45-48 | "" exactly when the stylist has no row for the service, otherwise a stored row's price |
| `StylistModel.ActiveServices` | stylist.rb:60 | exactly the salon's active services |
| `StylistModel.WithoutStylist` | stylist.rb:59 | `destroy_all` keeps exactly the rows of other stylists |
| `StylistModel.CreatedRows` | stylist.rb:60-69 | the loop over the first n active services creates at most one row per service |
| `StylistModel.CreatedRowsOwnedByStylist` | stylist.rb:60-69 | every created row belongs to the stylist whose services are saved |
| `StylistModel.CreatedRowsExact` | stylist.rb:60-69 | a row is created for active service i exactly when its length or price is positive, and it carries that length and price |
| `StylistModel.StylistServiceTable.SaveServices` | stylist.rb:58-70 | the table afterwards holds the other stylists' rows followed by the created rows, in service order |
| `StylistModel.SavedServicesReadBack` | stylist.rb:40-70 | after `save_services`, `service_length` and `service_price` of each active service show the values just saved, or "" when neither was positive |
| `StylistModel.FormattedAmount` | stylist.rb:111-133 | "" exactly when the amount is at most 0, the amount itself when positive, NoMethodError when nil |
| `StylistModel.StylistRecord.CleanValues` | stylist.rb:135-147 | rent becomes 0 only when nil; both commission rates always end up nil, and their formatted helpers then raise |
| `StylistModel.StylistRecord.CleanValuesAsIntended` | stylist.rb:135-147 | each nil amount becomes 0, every other is kept, and all three formatted helpers then succeed |
| `StylistModel.CleanValuesDropsRate` | stylist.rb:140-142 | a 40% service commission rate is nil after `clean_values`, and its formatted helper raises |
| `StylistModel.StylistRecord.MakeSureSelfGetsCorrectOrderIndex` | stylist.rb:189-192 | the cached index becomes `order_index`; the manual index becomes `manual_position` only under manual order; an exception stops the callback where raised; after success an active stylist in a manual salon has equal cached and manual indices, and an inactive one caches -1 |
| `StylistModel.StylistRecord.StylistEmploymentTypeCode` | stylist.rb:198-200 | "" when there is no employment type, else that type's code |

## Left out

- Names.Lower: ASCII letters only. Ruby's full Unicode `downcase` and its special cases are not modelled.
- Names.Below: strings are compared by code point. This is the byte order of their UTF-8 encodings, which is what Ruby's `<=>` compares when both strings are UTF-8. Other encodings are not modelled.
- CalendarStylistListItem.OrderedStylistNames: the SQL `order` by `salon.attribute_by_which_to_order_stylists` is not modelled; names stay in snapshot order. The permutation lemmas show the order cannot affect the position.
- CalendarStylistListItem.AttributeByWhichToOrderStylists: models the class's private helper, which nothing in the class calls; the query orders by the salon's method of the same name, and the salon model is not part of this model.
- Calendar.AlphabeticalPosition: `<<` appends in place to whatever array `salon.ordered_stylist_names` returns. The model treats that list as a fresh value on every call, which is exact only if the salon builds a new array each time; a memoised array would keep each appended name for later calls, and that aliasing is not modelled.
- Records.Stylist: a `user_role` row whose role is missing and a role whose code is NULL are both modelled as a nil code; a stylist without a user is modelled as one without roles. Both give one NULL row, as the LEFT JOINs do.
- ActiveRecord scopes and SQL queries (`active`, `inactive`, `with_active_salon`, `non_receptionist`, `unique_clients_ordered_by_name`, `report`, `has_appointment_at?`) are database queries. Only their results appear, as filtered sequences.
- `find_by_*` is modelled as "first row in the sequence". The database's own row order and its collation (which could compare names case-insensitively) are not modelled.
- The `after_save` resave of every stylist in the salon is an ORM persistence loop.
- `number_with_precision` is a foreign formatting call over decimals. Only the `> 0` gate is kept, and amounts are `real`.
- `gross_*` and `net_*` sales use float multiplication over the salon's `earnings`, which is not part of this model.
- `pay_rent`, `rent_payments`, `new_rent_payment` and `save_services_for_demo` create records using `Time.zone`.
- `everyone_stylist` only builds a record.
- `String#to_i` parsing in `save_services`: lengths and prices are taken as already-parsed integers.
- The presence validations of `name` and `salon` are not modelled. Names are never nil in the model.
- Idempotence of `order_index`: the model's functions are pure, so two calls on the same inputs are trivially equal.

## Findings

| source | as written | input that shows it | evidently intended | confidence | as-written member | corrected member |
|---|---|---|---|---|---|---|
| stylist.rb:140-146 | `if self.service_commission_rate = nil` (and the same for the retail rate) assigns nil, whose value is falsy, so the rate is always cleared and never defaulted | a stylist with a service commission rate of 0.4: after `clean_values` the rate is nil and `formatted_service_commission_rate` raises NoMethodError | `==`: default a nil rate to 0 and keep any other rate | high; not executed | `StylistModel.CleanValuesDropsRate` | `StylistModel.StylistRecord.CleanValuesAsIntended` |
