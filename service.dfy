/// The rental and billing handlers over an in-memory store that stands in for
/// the vehicles, rentals, invoices and memberships tables. Every handler is one
/// atomic method that takes the caller's user id (and, where the handler reads
/// the clock, the current time `now` in whole seconds) and returns a tagged
/// response; on every failure the store is left as it was.
module Service {
  import opened Outcomes
  import opened Fleet
  import opened Cost
  import opened Invoices

  /** What a successful completion reports: the completed rental and its invoice. */
  datatype Completion = Completion(rental: Rental, invoice: Invoice)

  /** What the estimate reports: the discounted hourly rate and the total. */
  datatype Estimate = Estimate(hourlyRate: real, totalCost: real)

  class Store {
    var vehicles: map<int, Vehicle>
    var rentals: seq<Rental>
    var invoices: seq<Invoice>
    /** The membership joined to each user, keyed by user id. */
    var memberships: map<int, Membership>

    ghost predicate Valid()
      reads this
    {
      Consistent(vehicles, rentals) && BillsCompletedRentals(invoices, rentals)
    }

    /** A store with the given vehicles and memberships and no rentals yet, so
        every vehicle is available. */
    constructor (fleet: map<int, Vehicle>, members: map<int, Membership>)
      requires KeyedById(fleet)
      requires forall id :: id in fleet ==> fleet[id].available
      ensures Valid()
      ensures vehicles == fleet && memberships == members && rentals == [] && invoices == []
    {
      vehicles, memberships := fleet, members;
      rentals, invoices := [], [];
    }

    /** Scans the rentals for the user's active rental, as the handlers'
        `WHERE user_id = ? AND status = 'active'` query does. */
    method ActiveRentalOf(user: int) returns (found: Option<nat>)
      ensures found == FirstActive(rentals, user)
      ensures found.Some? ==> found.value < |rentals| && IsActiveOf(rentals[found.value], user)
      ensures found.None? <==> !HasActive(rentals, user)
    {
      var i := 0;
      while i < |rentals|
        invariant 0 <= i <= |rentals|
        invariant forall j :: 0 <= j < i ==> !IsActiveOf(rentals[j], user)
      {
        if IsActiveOf(rentals[i], user) {
          return Some(i);
        }
        i := i + 1;
      }
      return None;
    }

    /** Lists the vehicles the user may book: the available ones, and of those
        only the non-VIP ones unless the user's membership grants VIP access.
        The order is unspecified, as the query has no ORDER BY. */
    method FetchAvailableVehicles(user: int) returns (r: Response<seq<Vehicle>>)
      requires Valid()
      ensures user !in memberships <==> r == Fail(NotFound)
      ensures user in memberships ==> r.Ok?
      ensures r.Ok? ==> forall v :: v in r.value <==>
                v.id in vehicles && vehicles[v.id] == v && Listed(v, memberships[user].vipAccess)
      ensures r.Ok? ==> forall i, j :: 0 <= i < j < |r.value| ==> r.value[i].id != r.value[j].id
    {
      if user !in memberships {
        return Fail(NotFound);
      }
      var vip := memberships[user].vipAccess;
      var todo := vehicles.Keys;
      var listed: seq<Vehicle> := [];
      while todo != {}
        invariant todo <= vehicles.Keys
        invariant forall v :: v in listed ==>
                    v.id in vehicles && v.id !in todo && vehicles[v.id] == v && Listed(v, vip)
        invariant forall id :: id in vehicles && id !in todo && Listed(vehicles[id], vip) ==>
                    vehicles[id] in listed
        invariant forall i, j :: 0 <= i < j < |listed| ==> listed[i].id != listed[j].id
        decreases todo
      {
        assert (forall id :: id !in todo) ==> todo == {};
        var id :| id in todo;
        if Listed(vehicles[id], vip) {
          listed := listed + [vehicles[id]];
        }
        todo := todo - {id};
      }
      r := Ok(listed);
    }

    /** Books `vehicleId` for `hours` hours from `now`. The checks of
        `CreateError` run in order; the first that fails is returned and
        nothing changes. Otherwise exactly one active rental is appended and
        that vehicle, and no other, becomes unavailable. */
    method CreateRental(user: int, vehicleId: int, hours: int, now: int) returns (r: Response<Rental>)
      requires Valid()
      modifies this
      ensures Valid()
      ensures memberships == old(memberships) && invoices == old(invoices)
      ensures var e := CreateError(old(vehicles), old(rentals), memberships, user, vehicleId, hours);
        if e.Some? then
          r == Fail(e.value) && vehicles == old(vehicles) && rentals == old(rentals)
        else
          && r == Ok(Rental(|old(rentals)| + 1, user, vehicleId, now, now + hours * SecondsPerHour, Active, 0))
          && rentals == old(rentals) + [r.value]
          && vehicles == old(vehicles)[vehicleId := old(vehicles)[vehicleId].(available := false)]
    {
      if user <= 0 || vehicleId <= 0 || hours <= 0 {
        return Fail(BadRequest);
      }
      var active := ActiveRentalOf(user);
      if active.Some? {
        return Fail(Conflict);
      }
      if vehicleId !in vehicles {
        return Fail(NotFound);
      }
      var v := vehicles[vehicleId];
      if !v.available {
        return Fail(Conflict);
      }
      if v.vipAccess {
        if user !in memberships {
          return Fail(NotFound);
        }
        if !memberships[user].vipAccess {
          return Fail(Forbidden);
        }
      }
      var rental := Rental(|rentals| + 1, user, vehicleId, now, now + hours * SecondsPerHour, Active, 0);
      BookKeepsConsistent(vehicles, rentals, user, vehicleId, rental.start, rental.end);
      BookKeepsBilling(invoices, rentals, rental);
      rentals := rentals + [rental];
      vehicles := vehicles[vehicleId := v.(available := false)];
      r := Ok(rental);
    }

    /** Cancels the user's active rental if at most one hour has passed since
        its start (exactly one hour is still allowed): the rental becomes
        cancelled and its vehicle available again. */
    method CancelRental(user: int, now: int) returns (r: Response<Rental>)
      requires Valid()
      modifies this
      ensures Valid()
      ensures memberships == old(memberships) && invoices == old(invoices)
      ensures r.Fail? ==> vehicles == old(vehicles) && rentals == old(rentals)
      ensures user <= 0 ==> r == Fail(BadRequest)
      ensures 0 < user && !HasActive(old(rentals), user) ==> r == Fail(NotFound)
      ensures 0 < user && HasActive(old(rentals), user) ==>
        var i := FirstActive(old(rentals), user).value;
        var rental := old(rentals)[i];
        if now - rental.start > SecondsPerHour then
          r == Fail(BadRequest)
        else
          && r == Ok(rental.(status := Cancelled))
          && rentals == old(rentals)[i := r.value]
          && vehicles == old(vehicles)[rental.vehicleId := old(vehicles)[rental.vehicleId].(available := true)]
    {
      if user <= 0 {
        return Fail(BadRequest);
      }
      var found := ActiveRentalOf(user);
      if found.None? {
        return Fail(NotFound);
      }
      var i := found.value;
      var rental := rentals[i];
      if now - rental.start > SecondsPerHour {
        return Fail(BadRequest);
      }
      var cancelled := rental.(status := Cancelled);
      ReleaseKeepsConsistent(vehicles, rentals, i, Cancelled);
      UncompletedChangeKeepsBilling(invoices, rentals, i, cancelled);
      rentals := rentals[i := cancelled];
      vehicles := vehicles[rental.vehicleId := vehicles[rental.vehicleId].(available := true)];
      r := Ok(cancelled);
    }

    /** Moves the end of the user's active rental `hours` hours later. Only the
        end changes: status, start and every vehicle stay as they were. */
    method ExtendRental(user: int, hours: int) returns (r: Response<Rental>)
      requires Valid()
      modifies this
      ensures Valid()
      ensures vehicles == old(vehicles) && memberships == old(memberships) && invoices == old(invoices)
      ensures r.Fail? ==> rentals == old(rentals)
      ensures user <= 0 || hours <= 0 ==> r == Fail(BadRequest)
      ensures 0 < user && 0 < hours && !HasActive(old(rentals), user) ==> r == Fail(NotFound)
      ensures 0 < user && 0 < hours && HasActive(old(rentals), user) ==>
        var i := FirstActive(old(rentals), user).value;
        var rental := old(rentals)[i];
        && r == Ok(rental.(end := rental.end + hours * SecondsPerHour))
        && rentals == old(rentals)[i := r.value]
    {
      if user <= 0 || hours <= 0 {
        return Fail(BadRequest);
      }
      var found := ActiveRentalOf(user);
      if found.None? {
        return Fail(NotFound);
      }
      var i := found.value;
      var extended := rentals[i].(end := rentals[i].end + hours * SecondsPerHour);
      RescheduleKeepsConsistent(vehicles, rentals, i, extended.end);
      UncompletedChangeKeepsBilling(invoices, rentals, i, extended);
      rentals := rentals[i := extended];
      r := Ok(extended);
    }

    /** Returns the user's active rental: bills the scheduled hours at the
        discounted rate and the overtime hours at 1.5 times the base rate,
        appends exactly one unpaid invoice for the rental, marks the rental
        completed and makes its vehicle available. The rental's own overtime
        column is left at 0. */
    method CompleteRental(user: int, now: int) returns (r: Response<Completion>)
      requires Valid()
      modifies this
      ensures Valid()
      ensures memberships == old(memberships)
      ensures r.Fail? ==> vehicles == old(vehicles) && rentals == old(rentals) && invoices == old(invoices)
      ensures user <= 0 ==> r == Fail(BadRequest)
      ensures 0 < user && !HasActive(old(rentals), user) ==> r == Fail(NotFound)
      ensures 0 < user && HasActive(old(rentals), user) && user !in memberships ==> r == Fail(InternalError)
      ensures 0 < user && HasActive(old(rentals), user) && user in memberships ==>
        var i := FirstActive(old(rentals), user).value;
        var rental := old(rentals)[i];
        var billed := BilledHours(rental.start, rental.end);
        var overtime := OvertimeHours(rental.end, now);
        var cost := FinalCost(billed, overtime, old(vehicles)[rental.vehicleId].costPerHour,
                              memberships[user].discountPct);
        var invoice := Invoice(|old(invoices)| + 1, user, rental.id, billed, overtime, cost, false, now);
        && r == Ok(Completion(rental.(status := Completed), invoice))
        && rentals == old(rentals)[i := r.value.rental]
        && invoices == old(invoices) + [invoice]
        && vehicles == old(vehicles)[rental.vehicleId := old(vehicles)[rental.vehicleId].(available := true)]
      ensures r.Ok? ==> r.value.rental.overtimeHours == 0
    {
      if user <= 0 {
        return Fail(BadRequest);
      }
      var found := ActiveRentalOf(user);
      if found.None? {
        return Fail(NotFound);
      }
      var i := found.value;
      var rental := rentals[i];
      var billed := BilledHours(rental.start, rental.end);
      var overtime := OvertimeHours(rental.end, now);
      var costPerHour := vehicles[rental.vehicleId].costPerHour;
      if user !in memberships {
        return Fail(InternalError);
      }
      var discountPct := memberships[user].discountPct;
      var cost := FinalCost(billed, overtime, costPerHour, discountPct);
      var invoice := Invoice(|invoices| + 1, user, rental.id, billed, overtime, cost, false, now);
      var completed := rental.(status := Completed);
      CompletionKeepsBilling(invoices, rentals, i, invoice);
      ReleaseKeepsConsistent(vehicles, rentals, i, Completed);
      invoices := invoices + [invoice];
      rentals := rentals[i := completed];
      vehicles := vehicles[rental.vehicleId := vehicles[rental.vehicleId].(available := true)];
      r := Ok(Completion(completed, invoice));
    }

    /** Prices `hours` hours of `vehicleId` for the user without touching the
        store. The hours are not validated. */
    method EstimateCost(user: int, vehicleId: int, hours: int) returns (r: Response<Estimate>)
      ensures user <= 0 ==> r == Fail(BadRequest)
      ensures 0 < user && user !in memberships ==> r == Fail(NotFound)
      ensures 0 < user && user in memberships && vehicleId !in vehicles ==> r == Fail(NotFound)
      ensures 0 < user && user in memberships && vehicleId in vehicles ==>
        var costPerHour := vehicles[vehicleId].costPerHour;
        var discountPct := memberships[user].discountPct;
        r == Ok(Estimate(DiscountedRate(costPerHour, discountPct),
                         EstimateTotal(costPerHour, discountPct, hours)))
    {
      if user <= 0 {
        return Fail(BadRequest);
      }
      if user !in memberships {
        return Fail(NotFound);
      }
      if vehicleId !in vehicles {
        return Fail(NotFound);
      }
      var costPerHour, discountPct := vehicles[vehicleId].costPerHour, memberships[user].discountPct;
      var rate := DiscountedRate(costPerHour, discountPct);
      var total := rate * hours as real;
      assert total == EstimateTotal(costPerHour, discountPct, hours);
      r := Ok(Estimate(rate, total));
    }

    /** Lists the user's invoices in stored order, only the unpaid ones when
        `unpaidOnly` parses as true. An empty `unpaidOnly` means false; one
        that does not parse is a bad request. */
    method FetchInvoices(user: int, unpaidOnly: string) returns (r: Response<seq<Invoice>>)
      ensures unpaidOnly != "" && ParseBool(unpaidOnly).None? <==> r == Fail(BadRequest)
      ensures unpaidOnly == "" || ParseBool(unpaidOnly).Some? ==> r.Ok?
      ensures r.Ok? ==>
        var onlyUnpaid := unpaidOnly != "" && ParseBool(unpaidOnly) == Some(true);
        && r.value == Visible(invoices, user, onlyUnpaid)
        && forall x :: x in r.value <==> x in invoices && Shown(x, user, onlyUnpaid)
    {
      var onlyUnpaid := false;
      if unpaidOnly != "" {
        var parsed := ParseBool(unpaidOnly);
        if parsed.None? {
          return Fail(BadRequest);
        }
        onlyUnpaid := parsed.value;
      }
      var listed: seq<Invoice> := [];
      var i := 0;
      while i < |invoices|
        invariant 0 <= i <= |invoices|
        invariant listed == Visible(invoices[..i], user, onlyUnpaid)
      {
        assert invoices[..i + 1][..i] == invoices[..i];
        if Shown(invoices[i], user, onlyUnpaid) {
          listed := listed + [invoices[i]];
        }
        i := i + 1;
      }
      assert invoices[..i] == invoices;
      forall x
        ensures x in listed <==> x in invoices && Shown(x, user, onlyUnpaid)
      {
        VisibleMembers(invoices, user, onlyUnpaid, x);
      }
      r := Ok(listed);
    }

    /** Marks the invoice `invoiceId` of `user` paid. Id 0 is a bad request.
        Only an invoice whose id and owner both match changes, and only its
        paid flag. As the update reports changed rows, an invoice that is
        missing, owned by someone else or already paid is not found. */
    method PayInvoice(user: int, invoiceId: int) returns (r: Response<int>)
      requires Valid()
      modifies this
      ensures Valid()
      ensures vehicles == old(vehicles) && rentals == old(rentals) && memberships == old(memberships)
      ensures r.Fail? ==> invoices == old(invoices)
      ensures invoiceId == 0 ==> r == Fail(BadRequest)
      ensures invoiceId != 0 ==>
        (r == Ok(invoiceId) <==>
          exists k :: 0 <= k < |old(invoices)| && old(invoices)[k].id == invoiceId
                      && old(invoices)[k].userId == user && !old(invoices)[k].paid)
      ensures invoiceId != 0 && r.Fail? ==> r.error == NotFound
      ensures r.Ok? ==> r.value == invoiceId
      ensures |invoices| == |old(invoices)|
      ensures forall k :: 0 <= k < |invoices| ==>
        invoices[k] == if invoiceId != 0 && old(invoices)[k].id == invoiceId && old(invoices)[k].userId == user
                       then old(invoices)[k].(paid := true) else old(invoices)[k]
    {
      if invoiceId == 0 {
        return Fail(BadRequest);
      }
      var k := invoiceId - 1;
      if 0 <= k < |invoices| && invoices[k].userId == user && !invoices[k].paid {
        PaymentKeepsBilling(invoices, rentals, k);
        invoices := invoices[k := invoices[k].(paid := true)];
        r := Ok(invoiceId);
      } else {
        r := Fail(NotFound);
      }
    }
  }

  /** Booking `h` hours, extending by `k` hours and returning the vehicle
      bills `h + k` hours, and any overtime is counted from the extended end. */
  method BookExtendAndReturn(s: Store, user: int, vehicleId: int, h: int, k: int, start: int, now: int)
    returns (bill: Response<Completion>)
    requires s.Valid()
    requires CreateError(s.vehicles, s.rentals, s.memberships, user, vehicleId, h).None?
    requires 0 < k && user in s.memberships
    modifies s
    ensures s.Valid()
    ensures bill.Ok?
    ensures bill.value.invoice.hours == h + k
    ensures bill.value.invoice.hoursOverdue == OvertimeHours(start + h * SecondsPerHour + k * SecondsPerHour, now)
  {
    var booked := s.CreateRental(user, vehicleId, h, start);
    ActiveRentalIsUnique(s.rentals, user, |s.rentals| - 1);
    var extended := s.ExtendRental(user, k);
    ActiveRentalIsUnique(s.rentals, user, |s.rentals| - 1);
    bill := s.CompleteRental(user, now);
    BookedPlusExtended(start, h, k);
  }
}
