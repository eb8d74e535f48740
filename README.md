# Appointment booking core, modelled in Dafny

The system is a Django web application where companies publish services and
customers book appointments. A company registers and fills in a public
profile. It defines locations, professionals and services, and gives each
service weekly time frames. Customers pick a free start time and book it. This
project models the business rules behind that flow and proves what they
guarantee:

- Availability: the schedule grid of a time frame (`TimeFrame.get_times`) and
  the available start times of a day (`AvailableTimesView.get`).
- Storage: the soft-delete table shared by every `NonDeletableModel`, and the
  (service, start) uniqueness of appointments.
- Booking: the request checks of `NewAppointmentView.post`.
- Statistics: the pivot tables and customer counts of `StatsView.get`.
- Accounts: the role default of `User.save`, the onboarding step, profile
  completeness, the signal that creates a company profile, the unique slug
  search of company registration, and the password change guard.
- Serializers: the customer upsert of `CustomerSerializer.create`, the time
  frame and location validators, and the appointment title.
- The filter backend of the appointment list.
- The `duration` and `price` template filters.

Conventions:

- A time of day is whole seconds since midnight.
- A date is a day number. A datetime is day · 86400 + seconds.
- A duration is whole seconds.
- Database queries become sequences passed in by the caller.
- Request data becomes maps from field names to values.
- Library parsers (`strptime`), the password hash and the payment gateway become
  function parameters.

Nothing in the code makes an offered slot fit inside its frame or keep clear
of later bookings. The slot loop runs while the slot's *start* is before the frame end, so a slot
may run past the frame end. A booking hides a candidate start only when the
start lies inside the booking, so a slot may overlap a later booking. The
lemmas `SlotMayRunPastFrameEnd`, `SlotMayOverlapLaterBooking` and
`BookingHidesOnlyItsStart` pin this behaviour down on small example frames.

One module per source file. `AvailableTimesView`, `NewAppointmentView` and
`StatsView` split appointments/views.py by view class. `Common` and `Decimal`
hold shared helpers: Option/Result, Python truthiness, sequence filtering and
decimal rendering.

## Model

| member | source | states |
|---|---|---|
| AppointmentModels.Step | appointments/models.py:43-45 | the distance between consecutive start times, duration plus gap, is positive for every service whose gap does not cancel its duration; it is at least the 15-minute minimum when the gap is not negative, and shorter than the duration when the gap is negative |
| AppointmentModels.GetTimes | appointments/models.py:124-135 | the cursor loop returns exactly the grid start, start + step, start + 2·step, … of the points below the end time |
| AppointmentModels.GridShape | appointments/models.py:127-135 | the grid is empty iff start >= end; its i-th element is start + i·step; its length is the ceiling of (end − start) / step |
| AppointmentModels.GridStart | appointments/models.py:127-129 | get_times is empty when the frame is empty and otherwise begins at the start time |
| AppointmentModels.GridSpacing | appointments/models.py:128-134 | every start time lies in [start, end), consecutive ones differ by exactly one step, and the list is strictly increasing |
| AppointmentModels.GridMembership | appointments/models.py:128-134 | independent characterisation: t is a start time iff start <= t < end and t − start is a whole number of steps |
| AppointmentModels.MidnightWrapNeverStops | appointments/models.py:128-134 | as written, with the day part dropped at each step, a 23:00–23:59 frame with a one-hour step never brings the cursor to the end, so the loop never ends |
| AppointmentModels.NonDeletableTable.Objects | appointments/models.py:10-12 | the default manager yields exactly the stored records whose active flag is set |
| AppointmentModels.NonDeletableTable.Save | appointments/models.py:27-30 | a record without an id is forced active and stored under a fresh id; a record with an id keeps its flag and replaces the stored row with that id (or is added); nothing else changes |
| AppointmentModels.NonDeletableTable.Delete | appointments/models.py:22-25 | a stored record is kept in the table with active = False and disappears from the default manager; deleting a never-saved record stores it active under a fresh id, because save forces the flag; the id counter advances as in save |
| AppointmentModels.InsertAppointment | appointments/models.py:79-80 | an insertion succeeds iff no stored appointment has the same (service, start), appends the appointment, and keeps the pair unique; otherwise it fails with an integrity error |
| AvailableTimesView.FrameTimes | appointments/views.py:417-432 | the cursor walk over one frame with its inner loop over the bookings produces exactly that frame's get_times grid with the busy points removed, because both branches advance by the same step |
| AvailableTimesView.Get | appointments/views.py:403-434 | the output is the {id, name} list of the free grid points of every frame, frame after frame; a date on or before today yields nothing, whatever the frames and the service |
| AvailableTimesView.Choices | appointments/views.py:433 | one {id, name} pair per time, both equal to the time, in the same order |
| AvailableTimesView.FreeMembership | appointments/views.py:423-428 | a grid point is kept iff no booking contains it (start <= t < end) |
| AvailableTimesView.FreeIncreasing | appointments/views.py:420-432 | dropping busy points keeps an increasing list increasing |
| AvailableTimesView.FreeGridUnfold | appointments/views.py:420-432 | one iteration of the loop: the first grid point is appended iff it is not busy, and the walk continues one step later |
| AvailableTimesView.WindowSlotsMembership | appointments/views.py:419-428 | t is offered in a frame iff it is a grid point of the frame (start <= t < end, whole steps from start) and no booking contains it |
| AvailableTimesView.WindowSlotsIncreasing | appointments/views.py:417-432 | within one frame the offered times are strictly increasing |
| AvailableTimesView.AllSlotsAppend | appointments/views.py:417-432 | the frames' results are concatenated in frame order, with no merging or de-duplication |
| AvailableTimesView.AllSlotsMembership | appointments/views.py:417-432 | t is offered for the day iff some frame offers it |
| AvailableTimesView.SlotMayRunPastFrameEnd | appointments/views.py:419-420 | a 09:30–10:15 frame with a 30-minute step offers 10:00, whose slot ends after the frame |
| AvailableTimesView.SlotMayOverlapLaterBooking | appointments/views.py:423-428 | a 07:00 start is offered although a booking starts at 07:15, inside its slot |
| AvailableTimesView.BookingHidesOnlyItsStart | appointments/views.py:417-432 | for any start and step, a frame of six steps with one booking on its third step offers exactly the other five starts, including the one right after the booking (for example 07:00–10:00, 30 minutes, booking 08:00–08:30: 07:00, 07:30, 08:30, 09:00, 09:30) |
| NewAppointmentView.Post | appointments/views.py:167-195 | a date or time that is present but not a string ends in the uncaught TypeError; otherwise the request is refused iff some check records an error, with exactly the recorded errors, and else start = date and time combined and end = start + the service's duration |
| NewAppointmentView.CheckRequired | appointments/views.py:171-174 | the loop records the "required" message for exactly the required fields that are absent or falsy |
| NewAppointmentView.RequiredFieldErrors | appointments/views.py:170-174 | a required field other than date and time carries the "required" message iff it is absent or empty |
| NewAppointmentView.DateAndTimeErrors | appointments/views.py:170-188 | date and time are reported iff absent, empty or unparsable, and a parse error replaces the "required" message |
| NewAppointmentView.EmptyDateReportsInvalid | appointments/views.py:172-179 | an empty date ends up with the parse error message, recorded after the "required" one |
| NewAppointmentView.CompleteRequestAccepted | appointments/views.py:170-190 | a request with every required field present, non-empty and parsable passes the checks |
| StatsView.FirstMatch | appointments/views.py:337-338 | the index of the first aggregate matching the date and name (no earlier one matches), or none when no aggregate matches; the looked-up value is that aggregate's value or the default |
| StatsView.BuildRow | appointments/views.py:334-339 | the row is the date followed by one looked-up value per name, in the order of the names |
| StatsView.PivotTable | appointments/views.py:333-340 | the table has the header ["Date"] + names and one row per date, each row the date followed by one looked-up value per name |
| StatsView.DailyTables | appointments/views.py:333-366 | the three per-date tables: counts per service default to 0, revenue per service to 1_000_000, counts per professional to 0 |
| StatsView.MissingGroupGetsDefault | appointments/views.py:337-338 | a (date, name) pair without an aggregate gets the default |
| StatsView.AppointmentsPerService | appointments/views.py:343-346 | a ["Service", "Count"] header and one row per service with the number of appointments of that service |
| StatsView.RevenueOr | appointments/views.py:369-371 | a sum that is zero or empty is replaced by the default; a non-zero sum is kept |
| StatsView.CollectOld | appointments/views.py:381-384 | the old customers are duplicate-free and are exactly the customers of the earlier appointments |
| StatsView.CollectNew | appointments/views.py:385-388 | the new customers are duplicate-free and are exactly this month's customers not among the old ones |
| StatsView.DistinctTotal | appointments/views.py:390-395 | the two lists together count every customer of either period exactly once |
| StatsView.CountCustomers | appointments/views.py:379-395 | old customers are the distinct earlier customers; new customers are the distinct customers of this month not seen before; both lists are duplicate-free; the total is the number of distinct customers over both periods |
| AccountsModels.DefaultRole | accounts/models.py:50-53 | a set role is kept; a missing role becomes the class's base role |
| AccountsModels.RoleTextRoundTrip | accounts/models.py:26-31 | each role, or none, is stored as a text that reads back as that role |
| AccountsModels.DefaultRoleSettles | accounts/models.py:50-53 | saving twice changes nothing more than saving once; a Company or Customer always ends up with a role |
| AccountsModels.User.Save | accounts/models.py:50-53 | only the role changes, to its default |
| AccountsModels.EmailPrefix | accounts/models.py:193 | the slug is the longest prefix of the e-mail without '@', followed in the e-mail by the first '@' |
| AccountsModels.User.CreateUserProfile | accounts/models.py:189-195 | a user saved without a role becomes a company and gets a profile whose slug is the e-mail prefix; a user with a role is left alone |
| AccountsModels.FirstEmpty | accounts/models.py:92-96 | the first position from the given one whose set is empty, or none when all are non-empty |
| AccountsModels.GetNextStep | accounts/models.py:85-98 | no step iff locations, professionals and services all exist; otherwise the first missing one with its "appointments:<model>-create" url name |
| AccountsModels.Fields | accounts/models.py:126-138 | the eleven profile entries, with their labels in the dictionary's insertion order |
| AccountsModels.SortByFilledIsStablePartition | accounts/models.py:140 | the sort keeps the same entries, puts every filled entry before every empty one, and keeps each group in its original order |
| AccountsModels.GetFields | accounts/models.py:125-141 | the profile's eleven entries, filled ones first, each group in declaration order |
| AccountsModels.GetCompleteFields | accounts/models.py:143-146 | exactly the truthy values, in get_fields order |
| AccountsModels.FilledValuesAreTruthy | accounts/models.py:145 | every value that survives the filter is truthy |
| AccountsModels.GetCompleteness | accounts/models.py:148-154 | the percentage is 100·k / 11 rounded down for k filled fields; it lies in 0..100, is 100 iff every field is filled and 0 iff none is |
| AccountsModels.CompletenessMonotone | accounts/models.py:148-154 | filling fields never lowers the completeness, and filling one more field raises it |
| AccountsModels.CompletenessFull | accounts/models.py:148-154 | the filled entries number at most all entries, and all entries iff every one is filled |
| AccountsModels.GetInputAvoidanceFlags | accounts/models.py:156-161 | each flag is the negation of its should_input setting |
| AccountsModels.FullName | accounts/models.py:175-177 | the first name, one space, the last name |
| AccountsViews.CandidateInjective | accounts/views.py:186 | distinct counters give distinct candidate slugs |
| AccountsViews.FindSlug | accounts/views.py:180-189 | the chosen slug is first-last-i for some i >= 1, is not taken, every smaller i is taken, and i is at most one more than the number of taken slugs, so the search ends |
| AccountsViews.Register | accounts/views.py:171-196 | with serializer errors: a 400 with the merged errors and nothing stored; with a missing name: the KeyError the code raises; otherwise a new, minimal, untaken slug is stored |
| AccountsViews.MergedErrors | accounts/views.py:193-195 | every field of either serializer is reported, the profile's message winning on a shared field |
| AccountsViews.ChangePassword | accounts/views.py:147-155 | the new password is stored and the user saved only when the old one checks; otherwise the user is unchanged and the answer is the "wrong password" error |
| AccountsSerializers.FirstCustomerWith | accounts/serializers.py:106 | the first customer row, in id order, with the given attribute value, or none when no customer has it |
| AccountsSerializers.FindMatch | accounts/serializers.py:105-109 | a citizen_id match wins; the e-mail is looked up only when no customer has that citizen_id; a key the lookup reads and the data lacks is a KeyError |
| AccountsSerializers.EmailMatchOnlyWithoutCitizenMatch | accounts/serializers.py:106-109 | a record matched by e-mail means no customer has the data's citizen_id |
| AccountsSerializers.SaveCustomerIsDefaultRole | accounts/models.py:50-53 | on a role column holding a role choice or nothing, saving a customer stores the role DefaultRole gives for the Customer proxy |
| AccountsSerializers.SaveCustomer | accounts/models.py:50-53 | saving a customer keeps a set role and leaves the record unchanged, replaces a falsy role by CUSTOMER, and touches no other attribute |
| AccountsSerializers.CopyFields | accounts/serializers.py:112-113 | the setattr loop leaves the record with every validated value and its other attributes unchanged: the record overlaid by the data |
| AccountsSerializers.UserTable.CreateCustomer | accounts/serializers.py:103-117 | a matched customer gets every validated field and is saved in place, with no row added and the others unchanged; with no match exactly one new customer is appended; a missing key changes nothing |
| AccountsSerializers.UpsertKeepsData | accounts/serializers.py:111-115 | after the update the customer carries every validated value, and keeps its other attributes |
| AccountsSerializers.HasGoogleAccountLinked | accounts/serializers.py:53-54 | true iff Google credentials are stored |
| AccountsSerializers.GetSubscription | accounts/serializers.py:38-44 | an empty subscription id gives None without consulting the gateway |
| AppointmentsSerializers.TimeFrameValidate | appointments/serializers.py:65-68 | a frame is refused iff it ends strictly before it starts; accepted data is returned unchanged |
| AppointmentsSerializers.EmptyFrameAccepted | appointments/serializers.py:66 | a frame whose end equals its start passes |
| AppointmentsSerializers.LocationValidate | appointments/serializers.py:78-83 | an address error iff the is_virtual key is absent and the address is empty; accepted data is returned unchanged |
| AppointmentsSerializers.FalseIsVirtualSkipsAddress | appointments/serializers.py:79 | is_virtual sent as False still skips the address check |
| AppointmentsSerializers.GetTitle | appointments/serializers.py:21-22 | the service name, " - ", then the customer's full name |
| AppointmentsSerializers.TitleDeterminesCustomer | appointments/serializers.py:21-22 | for one service, two titles are equal iff the customers' full names are |
| AppointmentFilters.FilterQueryset | appointments/filters.py:4-14 | the three chained filters keep an appointment iff it meets every given parameter (see FilterQuerysetSelects for order and the no-parameter case) |
| AppointmentFilters.Narrow | appointments/filters.py:9-13 | one filter keeps exactly the appointments meeting its condition |
| AppointmentFilters.FilterQuerysetIsOnePass | appointments/filters.py:4-14 | the three successive filters equal one pass keeping the appointments that meet every given parameter, in the same order |
| AppointmentFilters.SelectAllSpec | appointments/filters.py:4-14 | that pass keeps exactly the selected appointments and is an order-preserving subsequence of the input |
| AppointmentFilters.FilterQuerysetSelects | appointments/filters.py:4-14 | the result holds exactly the appointments starting after date_gt, ending before date_lt and of the given company, each only when given; it is an order-preserving subsequence; with no parameter it is the input |
| CustomTags.HoursPart | appointments/templatetags/custom_tags.py:12-16 | the hours part is empty exactly for no whole hour |
| CustomTags.MinutesPart | appointments/templatetags/custom_tags.py:18-22 | the minutes part is empty exactly for no whole minute |
| CustomTags.Duration | appointments/templatetags/custom_tags.py:7-24 | the text starts with a space iff there is no whole hour and ends with one iff there is no whole minute; DurationRoundTrip reads back its hours and minutes |
| CustomTags.DurationSplit | appointments/templatetags/custom_tags.py:7-24 | hours and minutes split the duration with minutes in 0..59 and under a minute dropped; the text is hours part, one space, minutes part, so it starts with a space iff there is no hour and ends with one iff there is no minute |
| CustomTags.UnderAMinuteIsBlank | appointments/templatetags/custom_tags.py:8-24 | a duration under a minute renders as a single space |
| CustomTags.HoursRoundTrip | appointments/templatetags/custom_tags.py:12-16 | reading the hours part back gives the hours |
| CustomTags.MinutesRoundTrip | appointments/templatetags/custom_tags.py:18-22 | reading the minutes part back gives the minutes |
| CustomTags.DurationRoundTrip | appointments/templatetags/custom_tags.py:7-24 | reading a rendered duration back gives its whole hours and its minutes |
| CustomTags.DurationDeterminesMinutes | appointments/templatetags/custom_tags.py:7-24 | two durations render alike iff they have the same number of whole minutes |
| CustomTags.Group | appointments/templatetags/custom_tags.py:29 | the digits with one comma per full group of three beyond the first |
| CustomTags.GroupCommas | appointments/templatetags/custom_tags.py:29 | a comma stands exactly at every fourth place counted from the right |
| CustomTags.Price | appointments/templatetags/custom_tags.py:27-29 | a dollar sign, then a minus sign exactly for a negative value |
| CustomTags.StripCommasOfGroup | appointments/templatetags/custom_tags.py:29 | removing the commas gives back the digits |
| CustomTags.PriceRoundTrip | appointments/templatetags/custom_tags.py:27-29 | reading a rendered price back gives the value |

## Findings

| source | as written | input that shows it | evidently intended | confidence | as-written member | corrected member |
|---|---|---|---|---|---|---|
| appointments/models.py:128-134 (same loop at appointments/views.py:420-432) | the cursor is advanced with `.time()`, which drops the day, while the guard compares with the end time | a frame 23:00–23:59 for a service whose duration plus gap is one hour: the cursor goes 23:00, 00:00, 01:00, … and never reaches 23:59, so the request never returns | the schedule stops at the end of the day: one start per step below the end, a finite increasing list | high; not executed | AppointmentModels.MidnightWrapNeverStops | AppointmentModels.GridShape |

The rest of the model uses the corrected grid. `GetTimes`, `FrameTimes` and
`Get` (for a date after today) take frames whose schedule stays within the
day (`InsideDay`). On such
frames the code as written and the grid agree.

## Left out

- AppointmentModels.Step: requires duration plus gap to be positive. Nothing in the code enforces this. With a gap of exactly minus the duration, the cursor stays where it is and the request never returns. With a larger negative gap, the cursor moves backwards in absolute time until the datetime addition falls below 0001-01-01 00:00 and raises OverflowError. Neither is modelled.
- AppointmentModels.GetTimes: requires the frame's end plus one step to stay before midnight (`InsideDay`) and a positive step (see Step). This bound is stronger than what the code needs to stop without wrapping, which is only that the last start plus one step stays before midnight. It excludes some frames the code handles, such as 09:00–23:00 with a two-hour step. The wrap the code performs beyond that is shown as a finding, not modelled as a result.
- AvailableTimesView.Get: for a date after today, requires a positive step and `InsideDay` for every frame, for the same reasons as GetTimes. A date on or before today needs neither.
- AvailableTimesView.FrameTimes: same requirements as GetTimes.
- StatsView.CountCustomers: states which customers each list holds and that neither repeats one, not the order of first appearance the loops produce.
- AccountsModels.User.CreateUserProfile: the e-mail is always a string; a user without an e-mail would make the code fail, which is not modelled.
- AccountsSerializers.GetSubscription: only the early return; the gateway is a function parameter, and the payment SDK call and response parsing are outside the model.
- Timezone conversion of bookings (`Professional.get_busy_times`) uses pytz. Bookings arrive as local seconds of day.
- Date and time parsing (`strptime`) of a string is a parameter returning None where the library raises ValueError. A value that is not a string is modelled as the TypeError outcome.
- The clock (`timezone.now()`) is a parameter: today's date in the availability view; the month boundaries in the statistics, as the two appointment lists passed in.
- Durations are whole seconds; `timedelta.total_seconds()` is a float, and its fractional part is not modelled.
- AccountsModels.GetCompleteness: uses the integer quotient 100·k / 11 in place of the float expression `int(k / 11 * 100)`; for the eleven fields (k in 0..11) the two agree, so nothing is lost.
- The ORM is replaced by sequences: query construction, aggregation, pagination, and database errors other than the (service, start) uniqueness are not modelled. Users are stored in id order, which is the order `.first()` uses.
- Serializer field validation is not modelled. Registration takes each serializer's errors as input. The customer upsert takes the already validated data.
- Password hashing is a function parameter; `check_password` compares the stored hash with the hash of the given password.
- Request values are null, booleans, integers or strings. Images and JSON objects stored in the profile are modelled by whether they are empty.
- The filter backend takes its parameters already converted; an empty parameter is the same as an absent one.
- The `price` filter is modelled for integers only, which is what prices are.
- What `NewAppointmentView.post` does after computing the end: serializer save, customer creation, e-mail and calendar tasks, `transaction.on_commit` scheduling. These are I/O and a task queue.
- E-mail and calendar tasks (appointments/tasks.py), payments (Mercado Pago), Google OAuth and JWT login, the seed and reset commands, URL routing, the admin, the front-end script, and the timing print in the statistics view: all I/O, foreign SDKs or framework plumbing.
- `User.has_google_account_linked` (accounts/models.py:67-68) applies the same rule as the serializer field and is modelled once.
