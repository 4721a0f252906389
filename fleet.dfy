/// Vehicles, rentals and memberships, the checks that admit a booking, and the
/// invariants that tie each vehicle's availability flag to the active rentals.
module Fleet {
  import opened Outcomes

  datatype Status = Active | Cancelled | Completed

  /** One row of the vehicles table. `vipAccess` marks a VIP-only vehicle. */
  datatype Vehicle = Vehicle(id: int, make: string, model: string, year: int,
                             available: bool, vipAccess: bool, costPerHour: real)

  /** One row of the rentals table; `id` is its auto-increment key and the
      timestamps are whole seconds. */
  datatype Rental = Rental(id: int, userId: int, vehicleId: int, start: int, end: int,
                           status: Status, overtimeHours: int)

  /** The membership a user is joined to: a discount in whole percent and
      whether it grants VIP access. */
  datatype Membership = Membership(discountPct: int, vipAccess: bool)

  predicate IsActiveOf(r: Rental, user: int)
  {
    r.status == Active && r.userId == user
  }

  /** Some active rental belongs to `user`. */
  predicate HasActive(rs: seq<Rental>, user: int)
  {
    exists i :: 0 <= i < |rs| && IsActiveOf(rs[i], user)
  }

  /** Some active rental holds vehicle `vehicleId`. */
  predicate Holds(rs: seq<Rental>, vehicleId: int)
  {
    exists i :: 0 <= i < |rs| && rs[i].status == Active && rs[i].vehicleId == vehicleId
  }

  /** The position of the first active rental of `user`, scanning from `from`. */
  function FirstActiveFrom(rs: seq<Rental>, user: int, from: nat): (o: Option<nat>)
    requires from <= |rs|
    ensures o.Some? ==> from <= o.value < |rs| && IsActiveOf(rs[o.value], user)
    ensures o.Some? ==> forall j :: from <= j < o.value ==> !IsActiveOf(rs[j], user)
    ensures o.None? ==> forall j :: from <= j < |rs| ==> !IsActiveOf(rs[j], user)
    decreases |rs| - from
  {
    if from == |rs| then None
    else if IsActiveOf(rs[from], user) then Some(from)
    else FirstActiveFrom(rs, user, from + 1)
  }

  /** The position of the first active rental of `user`, if any: the row the
      handlers' `WHERE user_id = ? AND status = 'active'` query returns. */
  function FirstActive(rs: seq<Rental>, user: int): (o: Option<nat>)
    ensures o.None? <==> !HasActive(rs, user)
    ensures o.Some? ==> o.value < |rs| && IsActiveOf(rs[o.value], user)
  {
    FirstActiveFrom(rs, user, 0)
  }

  /** VIP-eligible users see every available vehicle; others only the available
      vehicles that are not VIP-only. */
  predicate Listed(v: Vehicle, vipEligible: bool): (b: bool)
    ensures b ==> v.available
    ensures v.available && !v.vipAccess ==> b
    ensures vipEligible ==> (b <==> v.available)
    ensures !vipEligible && v.vipAccess ==> !b
  {
    v.available && (vipEligible || !v.vipAccess)
  }

  /** The outcome of the checks that precede a booking, in the order the
      handler makes them: bad input, an active rental of the user, a missing
      vehicle, an unavailable vehicle, a missing membership (VIP-only vehicle),
      no VIP access (VIP-only vehicle). `None` admits the booking. */
  function CreateError(vs: map<int, Vehicle>, rs: seq<Rental>, ms: map<int, Membership>,
                       user: int, vehicleId: int, hours: int): (e: Option<Error>)
    ensures e.None? <==>
      && user > 0 && vehicleId > 0 && hours > 0
      && !HasActive(rs, user)
      && vehicleId in vs && vs[vehicleId].available
      && (vs[vehicleId].vipAccess ==> user in ms && ms[user].vipAccess)
    ensures e == Some(BadRequest) <==> user <= 0 || vehicleId <= 0 || hours <= 0
    ensures e == Some(Conflict) <==>
      && user > 0 && vehicleId > 0 && hours > 0
      && (HasActive(rs, user) || (vehicleId in vs && !vs[vehicleId].available))
    ensures e == Some(NotFound) <==>
      && user > 0 && vehicleId > 0 && hours > 0
      && !HasActive(rs, user)
      && (vehicleId !in vs || (vs[vehicleId].available && vs[vehicleId].vipAccess && user !in ms))
    ensures e == Some(Forbidden) <==>
      && user > 0 && vehicleId > 0 && hours > 0
      && !HasActive(rs, user)
      && vehicleId in vs && vs[vehicleId].available && vs[vehicleId].vipAccess
      && user in ms && !ms[user].vipAccess
    ensures e != Some(InternalError)
  {
    if user <= 0 || vehicleId <= 0 || hours <= 0 then Some(BadRequest)
    else if HasActive(rs, user) then Some(Conflict)
    else if vehicleId !in vs then Some(NotFound)
    else if !vs[vehicleId].available then Some(Conflict)
    else if vs[vehicleId].vipAccess && user !in ms then Some(NotFound)
    else if vs[vehicleId].vipAccess && !ms[user].vipAccess then Some(Forbidden)
    else None
  }

  // The invariants of the vehicles and rentals tables.

  ghost predicate KeyedById(vs: map<int, Vehicle>)
  {
    forall id :: id in vs ==> vs[id].id == id
  }

  ghost predicate Numbered(rs: seq<Rental>)
  {
    forall i :: 0 <= i < |rs| ==> rs[i].id == i + 1
  }

  ghost predicate VehiclesExist(vs: map<int, Vehicle>, rs: seq<Rental>)
  {
    forall i :: 0 <= i < |rs| ==> rs[i].vehicleId in vs
  }

  /** A vehicle is unavailable exactly when an active rental holds it. */
  ghost predicate AvailabilityMirrorsRentals(vs: map<int, Vehicle>, rs: seq<Rental>)
  {
    forall id :: id in vs ==> (!vs[id].available <==> Holds(rs, id))
  }

  ghost predicate OneActivePerUser(rs: seq<Rental>)
  {
    forall i, j :: 0 <= i < j < |rs| && rs[i].status == Active && rs[j].status == Active ==>
      rs[i].userId != rs[j].userId
  }

  ghost predicate OneActivePerVehicle(rs: seq<Rental>)
  {
    forall i, j :: 0 <= i < j < |rs| && rs[i].status == Active && rs[j].status == Active ==>
      rs[i].vehicleId != rs[j].vehicleId
  }

  /** The overtime column is written 0 at booking and never updated. */
  ghost predicate OvertimeNeverRecorded(rs: seq<Rental>)
  {
    forall i :: 0 <= i < |rs| ==> rs[i].overtimeHours == 0
  }

  ghost predicate Consistent(vs: map<int, Vehicle>, rs: seq<Rental>)
  {
    && KeyedById(vs)
    && Numbered(rs)
    && VehiclesExist(vs, rs)
    && AvailabilityMirrorsRentals(vs, rs)
    && OneActivePerUser(rs)
    && OneActivePerVehicle(rs)
    && OvertimeNeverRecorded(rs)
  }

  /** With at most one active rental per user, the first active rental is the
      only one. */
  lemma ActiveRentalIsUnique(rs: seq<Rental>, user: int, i: nat)
    requires OneActivePerUser(rs)
    requires i < |rs| && IsActiveOf(rs[i], user)
    ensures FirstActive(rs, user) == Some(i)
  {
  }

  /** A vehicle that is listed as available is held by no active rental. */
  lemma ListedIsFree(vs: map<int, Vehicle>, rs: seq<Rental>, id: int, vipEligible: bool)
    requires AvailabilityMirrorsRentals(vs, rs)
    requires id in vs && Listed(vs[id], vipEligible)
    ensures forall i :: 0 <= i < |rs| && rs[i].vehicleId == id ==> rs[i].status != Active
  {
  }

  /** Booking an available vehicle for a user without an active rental keeps
      the tables consistent. */
  lemma BookKeepsConsistent(vs: map<int, Vehicle>, rs: seq<Rental>, user: int,
                            vehicleId: int, start: int, end: int)
    requires Consistent(vs, rs)
    requires vehicleId in vs && vs[vehicleId].available && !HasActive(rs, user)
    ensures Consistent(vs[vehicleId := vs[vehicleId].(available := false)],
                       rs + [Rental(|rs| + 1, user, vehicleId, start, end, Active, 0)])
  {
    var r := Rental(|rs| + 1, user, vehicleId, start, end, Active, 0);
    var vs', rs' := vs[vehicleId := vs[vehicleId].(available := false)], rs + [r];
    assert rs'[|rs|] == r;
    forall id | id in vs'
      ensures !vs'[id].available <==> Holds(rs', id)
    {
      if id == vehicleId {
        assert rs'[|rs|].status == Active && rs'[|rs|].vehicleId == id;
      } else {
        if Holds(rs', id) {
          var i :| 0 <= i < |rs'| && rs'[i].status == Active && rs'[i].vehicleId == id;
          assert i < |rs| && rs[i] == rs'[i];
        }
        if Holds(rs, id) {
          var i :| 0 <= i < |rs| && rs[i].status == Active && rs[i].vehicleId == id;
          assert rs'[i] == rs[i];
        }
      }
    }
    forall i | 0 <= i < |rs|
      ensures !IsActiveOf(rs[i], user)
      ensures !(rs[i].status == Active && rs[i].vehicleId == vehicleId)
    {
      assert rs[i].status == Active && rs[i].vehicleId == vehicleId ==> Holds(rs, vehicleId);
    }
  }

  /** Ending the active rental at position `i` (cancelled or completed) and
      making its vehicle available keeps the tables consistent. */
  lemma ReleaseKeepsConsistent(vs: map<int, Vehicle>, rs: seq<Rental>, i: nat, status: Status)
    requires Consistent(vs, rs)
    requires i < |rs| && rs[i].status == Active && status != Active
    ensures var v := rs[i].vehicleId;
            Consistent(vs[v := vs[v].(available := true)], rs[i := rs[i].(status := status)])
  {
    var v := rs[i].vehicleId;
    var vs', rs' := vs[v := vs[v].(available := true)], rs[i := rs[i].(status := status)];
    forall id | id in vs'
      ensures !vs'[id].available <==> Holds(rs', id)
    {
      if id == v {
        forall j | 0 <= j < |rs'|
          ensures !(rs'[j].status == Active && rs'[j].vehicleId == v)
        {
          if j != i {
            assert rs'[j] == rs[j];
            assert j < i ==> rs[j].status != Active || rs[j].vehicleId != rs[i].vehicleId;
            assert i < j ==> rs[j].status != Active || rs[i].vehicleId != rs[j].vehicleId;
          }
        }
      } else {
        if Holds(rs', id) {
          var j :| 0 <= j < |rs'| && rs'[j].status == Active && rs'[j].vehicleId == id;
          assert rs[j] == rs'[j];
        }
        if Holds(rs, id) {
          var j :| 0 <= j < |rs| && rs[j].status == Active && rs[j].vehicleId == id;
          assert rs'[j] == rs[j];
        }
      }
    }
  }

  /** Moving the scheduled end of a rental changes nothing the invariants
      depend on. */
  lemma RescheduleKeepsConsistent(vs: map<int, Vehicle>, rs: seq<Rental>, i: nat, end: int)
    requires Consistent(vs, rs) && i < |rs|
    ensures Consistent(vs, rs[i := rs[i].(end := end)])
  {
    var rs' := rs[i := rs[i].(end := end)];
    forall id | id in vs
      ensures Holds(rs', id) <==> Holds(rs, id)
    {
      if Holds(rs', id) {
        var j :| 0 <= j < |rs'| && rs'[j].status == Active && rs'[j].vehicleId == id;
        assert rs[j].status == Active && rs[j].vehicleId == id;
      }
      if Holds(rs, id) {
        var j :| 0 <= j < |rs| && rs[j].status == Active && rs[j].vehicleId == id;
        assert rs'[j].status == Active && rs'[j].vehicleId == id;
      }
    }
  }
}
