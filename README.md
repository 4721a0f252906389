# Electric car sharing: rental lifecycle and billing

This project models the rental and billing core of the electric car sharing
services. The core is the vehicle service's rental handlers and the billing
service's estimate, invoice listing and payment handlers.

The four SQL tables become fields of one class, `Service.Store`:

- `vehicles`: a map from vehicle id to the vehicle row. The row holds availability, the VIP-only flag and the hourly rate.
- `rentals`: an append-only sequence of rental rows. Each row holds user, vehicle, start, end, status (active, cancelled or completed) and the overtime column.
- `invoices`: an append-only sequence of invoice rows.
- `memberships`: a map from user id to the joined membership. It holds the discount percent and VIP access.

Every HTTP handler is one atomic method. It takes the caller's user id, and
`now` in whole seconds where the handler reads the clock. It returns a tagged
response: `Ok`, or `Fail` with `BadRequest`, `NotFound`, `Conflict`,
`Forbidden` or `InternalError`. On every failure the store is unchanged.

`Valid()` is the store invariant, and every transition keeps it:

- a vehicle is unavailable exactly when an active rental holds it;
- each user and each vehicle has at most one active rental;
- every rental's vehicle exists;
- rental and invoice ids are their auto-increment positions;
- the overtime column of every rental is 0;
- every completed rental is billed by exactly one invoice of the same user, and every invoice bills a completed rental.

Modules:

- `outcomes.dfy`: `Outcomes`, the response type.
- `fleet.dfy`: `Fleet`, the vehicle, rental and membership records, the booking checks, the active-rental lookup and the availability invariants with their preservation lemmas.
- `cost.dfy`: `Cost`, the hour counting and the pricing formulas.
- `invoices.dfy`: `Invoices`, the invoice record, the listing filter and the invoice/rental invariant.
- `service.dfy`: `Service`, the store and the handlers.

Decisions where the code or the database leave room:

- Paying an invoice that is already paid returns `NotFound` and changes nothing. The update is unconditional, but MySQL reports changed rows by default, and the connection string sets no `clientFoundRows`. So the repeat sees 0 affected rows.
- The rental's `overtime_hours` column is written 0 at booking (vehicle-service/handlers/handlers.go:177-178) and never updated. Completion writes the overtime only onto the invoice's `hours_overdue` (handlers.go:447-450).
- A late cancellation is a `BadRequest` (HTTP 400), as in the code, not a separate policy error.
- The estimate does not validate the hours. Zero hours estimate 0, and negative hours give a negative total whenever the discounted rate is positive (a positive hourly rate and a discount below 100 percent).

## Model

| member | source | states |
|---|---|---|
| `Cost.TruncatedHours` | electric-car-sharing/services/vehicle-service/handlers/handlers.go:394 | whole hours of a duration, truncated toward zero: for d >= 0, h·3600 <= d < (h+1)·3600; for d < 0, the mirror image |
| `Cost.BilledHours` | electric-car-sharing/services/vehicle-service/handlers/handlers.go:394-397 | billed hours are 0 when end <= start, otherwise the floor of (end − start) in hours |
| `Cost.OvertimeHours` | electric-car-sharing/services/vehicle-service/handlers/handlers.go:399-403 | overtime is 0 unless now is strictly after end; then it is the floor of (now − end) in hours |
| `Cost.BilledWholeHours` | electric-car-sharing/services/vehicle-service/handlers/handlers.go:175 | a rental booked for n hours (end = start + n·3600) is billed exactly n hours |
| `Cost.BookedPlusExtended` | electric-car-sharing/services/vehicle-service/handlers/handlers.go:567 | booking h hours and extending by k hours bills h + k hours |
| `Cost.DiscountedRate` | electric-car-sharing/services/vehicle-service/handlers/handlers.go:435-439 | the discounted rate equals the base rate at 0 %, is 0 at 100 %, and lies between 0 and the base rate for a discount in between |
| `Cost.OvertimeRate` | electric-car-sharing/services/vehicle-service/handlers/handlers.go:438 | the overtime rate is the base rate plus half of it, so never below a non-negative base rate |
| `Cost.FinalCost` | electric-car-sharing/services/vehicle-service/handlers/handlers.go:434-440 | the final cost is the billed hours at the discounted rate plus the overtime hours at the overtime rate; for non-negative hours and rate and a discount of 0-100 % it lies between 0 and the undiscounted price of both parts |
| `Cost.EstimateTotal` | electric-car-sharing/services/billing-service/handlers/handlers.go:85-87 | for non-negative hours and rate and a discount of 0-100 % the estimate lies between 0 and the undiscounted price; negative hours at a positive discounted rate give a negative total |
| `Cost.OvertimeMonotone` | electric-car-sharing/services/vehicle-service/handlers/handlers.go:399-403 | returning later never lowers the overtime hours |
| `Cost.CompletionExample` | electric-car-sharing/services/vehicle-service/handlers/handlers.go:434-440 | a rental booked for 5 h, returned 2 h late, at rate 10 with 20 % off, is billed 5 h and 2 overtime hours at rates 8 and 15, for a final cost of 70 |
| `Cost.OvertimeIsNotDiscounted` | electric-car-sharing/services/vehicle-service/handlers/handlers.go:438-440 | the final cost is the discounted booked part plus an overtime part at 1.5 × base rate that is the same for every discount |
| `Cost.EstimateLinear` | electric-car-sharing/services/billing-service/handlers/handlers.go:86-87 | the estimate is additive in the hours and 0 for 0 hours |
| `Cost.EstimateIsCostWithoutOvertime` | electric-car-sharing/services/billing-service/handlers/handlers.go:86-87 | the estimate equals the completion cost of the same hours with no overtime |
| `Fleet.FirstActiveFrom` | electric-car-sharing/services/vehicle-service/handlers/handlers.go:236-241 | the first active rental of the user at or after a position, or none if no later rental is active for that user |
| `Fleet.FirstActive` | electric-car-sharing/services/vehicle-service/handlers/handlers.go:349-354 | the active-rental lookup finds nothing exactly when the user has no active rental; otherwise it names an active rental of that user |
| `Fleet.CreateError` | electric-car-sharing/services/vehicle-service/handlers/handlers.go:97-171 | a booking is admitted exactly when inputs are positive, the user has no active rental, and the vehicle exists, is available and is VIP-eligible. Otherwise the error is the first failing check in source order (BadRequest, Conflict, NotFound, Conflict, NotFound, Forbidden), each error stated as an if-and-only-if |
| `Fleet.Listed` | electric-car-sharing/services/vehicle-service/handlers/handlers.go:36-41 | a listed vehicle is available; a VIP-eligible user sees exactly the available vehicles; others never see a VIP-only vehicle but see every available non-VIP one |
| `Fleet.ActiveRentalIsUnique` | electric-car-sharing/services/vehicle-service/handlers/handlers.go:109-123 | with at most one active rental per user, the lookup returns that one rental |
| `Fleet.ListedIsFree` | electric-car-sharing/services/vehicle-service/handlers/handlers.go:37-41 | a vehicle that the listing shows is held by no active rental |
| `Fleet.BookKeepsConsistent` | electric-car-sharing/services/vehicle-service/handlers/handlers.go:173-194 | appending an active rental and marking its vehicle unavailable keeps the availability, one-active-per-user and one-active-per-vehicle invariants |
| `Fleet.ReleaseKeepsConsistent` | electric-car-sharing/services/vehicle-service/handlers/handlers.go:291-307 | ending an active rental and making its vehicle available keeps the same invariants |
| `Fleet.RescheduleKeepsConsistent` | electric-car-sharing/services/vehicle-service/handlers/handlers.go:566-576 | moving a rental's end keeps the same invariants |
| `Invoices.ParseBool` | electric-car-sharing/services/billing-service/handlers/handlers.go:130-138 | accepts 1/t/T/true/TRUE/True as true and 0/f/F/false/FALSE/False as false, rejects every other string, and the first character decides the value |
| `Invoices.Shown` | electric-car-sharing/services/billing-service/handlers/handlers.go:140-147 | a shown invoice is the user's, and unpaid when only unpaid ones are asked for; every unpaid invoice of the user is shown, and without the filter exactly the user's invoices are |
| `Invoices.Visible` | electric-car-sharing/services/billing-service/handlers/handlers.go:140-165 | the listing is a filter of the stored invoices: never longer than the table |
| `Invoices.VisibleMembers` | electric-car-sharing/services/billing-service/handlers/handlers.go:143-147 | an invoice is listed exactly when it is stored, belongs to the user, and is unpaid if only unpaid invoices are asked for |
| `Invoices.VisibleAppend` | electric-car-sharing/services/billing-service/handlers/handlers.go:157-165 | the listing keeps the stored order: listing a + b gives the listing of a, then the listing of b |
| `Invoices.UnpaidListingFiltersFullListing` | electric-car-sharing/services/billing-service/handlers/handlers.go:143-147 | the unpaid-only listing is the full listing with the paid invoices dropped |
| `Invoices.ActiveRentalIsUnbilled` | electric-car-sharing/services/vehicle-service/handlers/handlers.go:446-450 | no invoice refers to a rental that is not completed |
| `Invoices.BookKeepsBilling` | electric-car-sharing/services/vehicle-service/handlers/handlers.go:176-180 | a new active rental keeps every invoice tied to a completed rental |
| `Invoices.UncompletedChangeKeepsBilling` | electric-car-sharing/services/vehicle-service/handlers/handlers.go:291-293 | cancelling or rescheduling an active rental keeps the invoice/rental invariant |
| `Invoices.CompletionKeepsBilling` | electric-car-sharing/services/vehicle-service/handlers/handlers.go:446-471 | completing a rental and appending its invoice keeps every completed rental billed exactly once |
| `Invoices.PaymentKeepsBilling` | electric-car-sharing/services/billing-service/handlers/handlers.go:216-220 | flipping an invoice's paid flag keeps the invoice/rental invariant |
| `Service.Store.constructor` | electric-car-sharing/services/vehicle-service/models/vehicle.go:4-12 | a store with the given vehicle rows and memberships, no rentals, no invoices, and every vehicle available is valid |
| `Service.Store.ActiveRentalOf` | electric-car-sharing/services/vehicle-service/handlers/handlers.go:349-363 | the scan returns the first active rental of the user, or none exactly when the user has none |
| `Service.Store.FetchAvailableVehicles` | electric-car-sharing/services/vehicle-service/handlers/handlers.go:14-63 | NotFound exactly when the user has no membership; otherwise Ok, listing exactly the available vehicles, without the VIP-only ones for non-VIP users, none twice |
| `Service.Store.CreateRental` | electric-car-sharing/services/vehicle-service/handlers/handlers.go:67-214 | fails with CreateError's verdict and no change; otherwise appends one active rental (overtime 0, end = start + hours·3600), sets only that vehicle unavailable, and keeps Valid |
| `Service.Store.CancelRental` | electric-car-sharing/services/vehicle-service/handlers/handlers.go:216-323 | BadRequest for user <= 0; NotFound without an active rental; BadRequest with no change if now − start > 1 h; otherwise the rental becomes cancelled and its vehicle available, keeping Valid |
| `Service.Store.ExtendRental` | electric-car-sharing/services/vehicle-service/handlers/handlers.go:503-592 | BadRequest for user <= 0 or hours <= 0; NotFound without an active rental; otherwise only the rental's end moves by hours·3600; vehicles are unchanged |
| `Service.Store.CompleteRental` | electric-car-sharing/services/vehicle-service/handlers/handlers.go:327-500 | BadRequest, NotFound, or InternalError (no membership) with no change; otherwise appends one unpaid invoice with the billed hours, overtime hours and final cost, completes the rental (its overtime column stays 0), frees its vehicle, and keeps Valid |
| `Service.Store.EstimateCost` | electric-car-sharing/services/billing-service/handlers/handlers.go:25-100 | reads only; BadRequest for user <= 0; NotFound for a missing membership, then for a missing vehicle; otherwise the discounted rate and hours × rate × (1 − pct/100) |
| `Service.Store.FetchInvoices` | electric-car-sharing/services/billing-service/handlers/handlers.go:113-180 | BadRequest exactly when a non-empty unpaidonly does not parse; otherwise Ok with exactly the user's invoices (unpaid only if asked), in stored order |
| `Service.Store.PayInvoice` | electric-car-sharing/services/billing-service/handlers/handlers.go:183-251 | BadRequest for id 0; only an invoice matching both id and user gets paid = true, nothing else changes; Ok(invoiceId) exactly when such an invoice was unpaid, otherwise NotFound |
| `Service.BookExtendAndReturn` | electric-car-sharing/services/vehicle-service/handlers/handlers.go:394-403 | an admitted booking of h hours, extended by k hours and then returned, is invoiced h + k hours, with overtime counted from the extended end |

## Left out

- HTTP and JSON: query-parameter and body parsing, status writing and debug prints are not modelled. User ids arrive as integers, so the 400 for a missing or non-numeric `user_id` is not modelled.
- Transactions and concurrency: begin, commit and rollback failures (500) and interleaved requests are not modelled. Nor is the cancel handler's read of the active rental outside its transaction. Each handler is one atomic step.
- Database errors other than a missing row are not modelled. The missing-membership lookup in completion is the exception; it is the `InternalError` outcome.
- The completion handler's 500 for a missing vehicle rate can never happen in the model. The invariant makes every rental's vehicle exist.
- Time zones and date strings are not modelled. Every timestamp, including the invoice's UTC `created_at`, is whole seconds on one clock. Differences of instants do not depend on the zone.
- Service.Store.CancelRental: compares the elapsed time in whole seconds. The handler compares it at nanosecond precision, so a cancellation less than a second past the hour is rejected there but allowed here.
- Duration arithmetic: Go's `time.Duration` is a signed 64-bit count of nanoseconds. The model's hour and second arithmetic is unbounded, so it holds only while every booking and extension is below 2562048 hours and every difference of instants is below about 2562047 hours (292 years). Beyond that the source wraps or saturates, as the lines below say per member.
- Service.Store.CreateRental: end = now + hours·3600 is exact; in the source `time.Duration(hours) * time.Hour` (handlers.go:175) wraps for hours >= 2562048, e.g. 5124096 hours ends 25 min 26 s after the start.
- Service.Store.ExtendRental: the new end moves by exactly hours·3600; the same product (handlers.go:567) wraps for hours >= 2562048.
- Service.Store.CompleteRental: billed and overtime hours are exact; in the source `Sub` (handlers.go:394, 401) saturates, so neither exceeds 2562047, and a wrapped booking is billed from its wrapped end.
- Cost.BilledHours: exact whole hours; the source's `Sub` saturates at 2562047 hours for an end more than about 292 years after the start.
- Cost.OvertimeHours: exact whole hours; the source caps overtime at 2562047 hours by the same saturation.
- Cost.BilledWholeHours: holds in the source only for n < 2562048, since the booking product wraps beyond that.
- Cost.BookedPlusExtended: holds in the source only while h, k and h + k are below 2562048.
- Service.BookExtendAndReturn: the h + k billed hours holds in the source only while h, k and h + k are below 2562048.
- Money is an exact `real`. Float64 rounding is not modelled. The discount is an integer percent: the estimate reads it as an int, while completion reads it as a float64.
- Service.Store.FetchAvailableVehicles: states which vehicles are listed and that none repeats, not their order, because the query has no ORDER BY.
- Service.Store.FetchInvoices: the invoice query has no ORDER BY either; listing in stored (id) order is an assumption about the database.
- The store starts with no rentals and every vehicle available. Vehicles that are unavailable for other reasons would break the availability invariant.
- Account management, password hashing, membership updates (user service), the interactive console and the server wiring are outside this model.

