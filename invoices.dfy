/// The invoices table: its record, the per-user listing filter, the boolean
/// query parameter it parses, and the invariant that ties invoices to
/// completed rentals.
module Invoices {
  import opened Outcomes
  import opened Fleet

  /** One row of the invoices table. `createdAt` is whole seconds, UTC. */
  datatype Invoice = Invoice(id: int, userId: int, rentalId: int, hours: int, hoursOverdue: int,
                             finalCost: real, paid: bool, createdAt: int)

  /** Go's `strconv.ParseBool`: the accepted spellings of true and false. */
  function ParseBool(s: string): (r: Option<bool>)
    ensures r.Some? ==> 1 <= |s| <= 5 && (r.value <==> s[0] in "1tT")
    ensures s in ["1", "t", "T", "true", "TRUE", "True"] ==> r == Some(true)
    ensures s in ["0", "f", "F", "false", "FALSE", "False"] ==> r == Some(false)
    ensures r.Some? ==> s in ["1", "t", "T", "true", "TRUE", "True", "0", "f", "F", "false", "FALSE", "False"]
  {
    if s in ["1", "t", "T", "true", "TRUE", "True"] then Some(true)
    else if s in ["0", "f", "F", "false", "FALSE", "False"] then Some(false)
    else None
  }

  /** Whether an invoice is listed for `user`: it is theirs, and unpaid when
      only unpaid invoices are asked for. */
  predicate Shown(inv: Invoice, user: int, unpaidOnly: bool): (b: bool)
    ensures b ==> inv.userId == user
    ensures b && unpaidOnly ==> !inv.paid
    ensures inv.userId == user && !inv.paid ==> b
    ensures !unpaidOnly ==> (b <==> inv.userId == user)
  {
    inv.userId == user && (!unpaidOnly || !inv.paid)
  }

  /** The invoices listed for `user`, in stored order. */
  function Visible(invs: seq<Invoice>, user: int, unpaidOnly: bool): (r: seq<Invoice>)
    ensures |r| <= |invs|
    decreases |invs|
  {
    if invs == [] then []
    else
      var last := invs[|invs| - 1];
      Visible(invs[..|invs| - 1], user, unpaidOnly) + (if Shown(last, user, unpaidOnly) then [last] else [])
  }

  /** Exactly the shown invoices are listed. */
  lemma {:induction false} VisibleMembers(invs: seq<Invoice>, user: int, unpaidOnly: bool, x: Invoice)
    ensures x in Visible(invs, user, unpaidOnly) <==> x in invs && Shown(x, user, unpaidOnly)
    decreases |invs|
  {
    if invs != [] {
      var init := invs[..|invs| - 1];
      VisibleMembers(init, user, unpaidOnly, x);
      assert invs == init + [invs[|invs| - 1]];
    }
  }

  /** Listing keeps the stored order: the listing of two consecutive stretches
      of the table is the first listing followed by the second. */
  lemma {:induction false} VisibleAppend(a: seq<Invoice>, b: seq<Invoice>, user: int, unpaidOnly: bool)
    ensures Visible(a + b, user, unpaidOnly) == Visible(a, user, unpaidOnly) + Visible(b, user, unpaidOnly)
    decreases |b|
  {
    if b == [] {
      assert a + b == a;
    } else {
      var init := b[..|b| - 1];
      VisibleAppend(a, init, user, unpaidOnly);
      assert (a + b)[..|a + b| - 1] == a + init;
      assert (a + b)[|a + b| - 1] == b[|b| - 1];
    }
  }

  /** The unpaid-only listing is the full listing with the paid invoices
      dropped. */
  lemma {:induction false} UnpaidListingFiltersFullListing(invs: seq<Invoice>, user: int)
    ensures Visible(Visible(invs, user, false), user, true) == Visible(invs, user, true)
    decreases |invs|
  {
    if invs != [] {
      var init := invs[..|invs| - 1];
      var last := invs[|invs| - 1];
      UnpaidListingFiltersFullListing(init, user);
      VisibleAppend(Visible(init, user, false), if Shown(last, user, false) then [last] else [], user, true);
      if Shown(last, user, false) {
        assert Visible([last], user, true) == if Shown(last, user, true) then [last] else [];
      }
    }
  }

  /** Every invoice is numbered by its position, bills one completed rental of
      its own user, no rental is billed twice, and every completed rental is
      billed. */
  ghost predicate BillsCompletedRentals(invs: seq<Invoice>, rs: seq<Rental>)
  {
    && (forall k :: 0 <= k < |invs| ==>
          && invs[k].id == k + 1
          && 1 <= invs[k].rentalId <= |rs|
          && rs[invs[k].rentalId - 1].status == Completed
          && rs[invs[k].rentalId - 1].userId == invs[k].userId)
    && (forall k, l :: 0 <= k < l < |invs| ==> invs[k].rentalId != invs[l].rentalId)
    && (forall i :: 0 <= i < |rs| && rs[i].status == Completed ==> BilledRental(invs, i + 1))
  }

  predicate BilledRental(invs: seq<Invoice>, rentalId: int)
  {
    exists k :: 0 <= k < |invs| && invs[k].rentalId == rentalId
  }

  /** No invoice bills a rental that has not been completed. */
  lemma ActiveRentalIsUnbilled(invs: seq<Invoice>, rs: seq<Rental>, i: nat)
    requires BillsCompletedRentals(invs, rs)
    requires i < |rs| && rs[i].status != Completed
    ensures !BilledRental(invs, i + 1)
  {
  }

  /** A booking adds an active rental, which needs no invoice. */
  lemma BookKeepsBilling(invs: seq<Invoice>, rs: seq<Rental>, r: Rental)
    requires BillsCompletedRentals(invs, rs) && r.status == Active
    ensures BillsCompletedRentals(invs, rs + [r])
  {
  }

  /** Changing an active rental into anything but a completed one (a
      cancellation, a new end time) leaves the billing invariant intact. */
  lemma UncompletedChangeKeepsBilling(invs: seq<Invoice>, rs: seq<Rental>, i: nat, r: Rental)
    requires BillsCompletedRentals(invs, rs)
    requires i < |rs| && rs[i].status == Active && r.status != Completed
    ensures BillsCompletedRentals(invs, rs[i := r])
  {
  }

  /** Completing the active rental at position `i` together with appending its
      invoice keeps every completed rental billed exactly once. */
  lemma CompletionKeepsBilling(invs: seq<Invoice>, rs: seq<Rental>, i: nat, inv: Invoice)
    requires BillsCompletedRentals(invs, rs)
    requires i < |rs| && rs[i].status == Active
    requires inv.id == |invs| + 1 && inv.rentalId == i + 1 && inv.userId == rs[i].userId
    ensures BillsCompletedRentals(invs + [inv], rs[i := rs[i].(status := Completed)])
  {
    ActiveRentalIsUnbilled(invs, rs, i);
    var invs', rs' := invs + [inv], rs[i := rs[i].(status := Completed)];
    assert invs'[|invs|] == inv;
    forall j | 0 <= j < |rs'| && rs'[j].status == Completed
      ensures BilledRental(invs', j + 1)
    {
      if j == i {
        assert invs'[|invs|].rentalId == j + 1;
      } else {
        assert BilledRental(invs, j + 1);
        var k :| 0 <= k < |invs| && invs[k].rentalId == j + 1;
        assert invs'[k].rentalId == j + 1;
      }
    }
  }

  /** Marking an invoice paid touches nothing the invariant depends on. */
  lemma PaymentKeepsBilling(invs: seq<Invoice>, rs: seq<Rental>, k: nat)
    requires BillsCompletedRentals(invs, rs) && k < |invs|
    ensures BillsCompletedRentals(invs[k := invs[k].(paid := true)], rs)
  {
    var invs' := invs[k := invs[k].(paid := true)];
    forall l | 0 <= l < |invs|
      ensures invs'[l].id == invs[l].id && invs'[l].rentalId == invs[l].rentalId
      ensures invs'[l].userId == invs[l].userId
    {
    }
    forall i | 0 <= i < |rs| && rs[i].status == Completed
      ensures BilledRental(invs', i + 1)
    {
      assert BilledRental(invs, i + 1);
      var l :| 0 <= l < |invs| && invs[l].rentalId == i + 1;
      assert invs'[l].rentalId == i + 1;
    }
  }
}
