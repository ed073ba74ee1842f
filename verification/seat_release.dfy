/** The check-payment step of the seat-release job: once the payment window
    has passed, an unpaid booking gives its seat labels back to the show and
    is deleted; a paid booking is left alone.

    The booking and show collections are modelled as maps keyed by id. The
    durable sleep that precedes the step is not modelled: `Release` is what
    happens when the job wakes up. */
module SeatRelease {
  import opened Wrappers
  import opened Ids

  type BookingId = string
  type ShowId = string
  /** A seat label such as "A1". */
  type Seat = string

  /** The payment window the job sleeps for, in milliseconds. It only fixes
      when `Release` runs and has no effect on what it does. */
  const PaymentWindowMs: nat := 10 * 60 * 1000

  /** A booking: the show it is for, the user who made it, the seat labels it
      requested, and whether it has been paid. */
  datatype Booking = Booking(user: UserId, show: ShowId, bookedSeats: seq<Seat>, isPaid: bool)

  /** A show and its occupancy: a label present in `occupiedSeats` is
      reserved by the user it maps to; an absent label is free. */
  datatype Show = Show(movie: MovieId, showDateTime: int, occupiedSeats: map<Seat, UserId>)

  type Bookings = map<BookingId, Booking>
  type Shows = map<ShowId, Show>

  /** The two collections the job reads and writes. */
  datatype Store = Store(bookings: Bookings, shows: Shows)

  /** Why the step throws: the booking lookup returned null (its `isPaid` is
      then read from null), or the show lookup did. */
  datatype ReleaseError = BookingNotFound | ShowNotFound

  /** Deletes each label of `seats` from `occupied`, one after another, as the
      `forEach` over `bookedSeats` does. Labels are removed whoever holds them,
      and removing an absent label changes nothing. */
  function RemoveSeats(occupied: map<Seat, UserId>, seats: seq<Seat>): (r: map<Seat, UserId>)
    ensures forall s :: s in seats ==> s !in r
    ensures forall s :: s in occupied && s !in seats ==> s in r && r[s] == occupied[s]
    ensures forall s :: s in r ==> s in occupied
    decreases |seats|
  {
    if |seats| == 0 then occupied
    else
      var rest := RemoveSeats(occupied - {seats[0]}, seats[1..]);
      assert forall s :: s in seats ==> s == seats[0] || s in seats[1..];
      rest
  }

  /** `after` is `before` with booking `id` deleted and nothing else changed. */
  ghost predicate BookingDeleted(before: Bookings, after: Bookings, id: BookingId)
  {
    && id !in after
    && (forall k :: k in before && k != id ==> k in after && after[k] == before[k])
    && (forall k :: k in after ==> k in before)
  }

  /** `after` differs from `before` at most in the occupancy of show `sh`. */
  ghost predicate OnlyShowChanged(before: Shows, after: Shows, sh: ShowId)
  {
    && sh in before && sh in after
    && (forall k :: k in before && k != sh ==> k in after && after[k] == before[k])
    && (forall k :: k in after ==> k in before)
    && after[sh].movie == before[sh].movie
    && after[sh].showDateTime == before[sh].showDateTime
  }

  /** Every label of `seats` is free in `after`; every other label keeps its
      presence and its holder; no label is added. */
  ghost predicate SeatsFreed(before: map<Seat, UserId>, after: map<Seat, UserId>, seats: seq<Seat>)
  {
    && (forall s :: s in seats ==> s !in after)
    && (forall s :: s in before && s !in seats ==> s in after && after[s] == before[s])
    && (forall s :: s in after ==> s in before)
  }

  /** The check-payment step for booking `id`. A missing booking or a missing
      show is a failure and the store is left as it was (nothing is saved
      before the throw). A paid booking leaves the store unchanged. An unpaid
      booking has its labels deleted from its show's occupancy, by label only,
      and is then deleted. */
  function Release(store: Store, id: BookingId): (r: Result<Store, ReleaseError>)
    ensures r == Failure(BookingNotFound) <==> id !in store.bookings
    ensures id in store.bookings && store.bookings[id].isPaid ==> r == Success(store)
    ensures id in store.bookings && !store.bookings[id].isPaid ==>
      (r == Failure(ShowNotFound) <==> store.bookings[id].show !in store.shows)
    ensures id in store.bookings && !store.bookings[id].isPaid && r.Success? ==>
      var b := store.bookings[id];
      && BookingDeleted(store.bookings, r.value.bookings, id)
      && OnlyShowChanged(store.shows, r.value.shows, b.show)
      && SeatsFreed(store.shows[b.show].occupiedSeats, r.value.shows[b.show].occupiedSeats, b.bookedSeats)
  {
    if id !in store.bookings then Failure(BookingNotFound)
    else
      var booking := store.bookings[id];
      if booking.isPaid then Success(store)
      else if booking.show !in store.shows then Failure(ShowNotFound)
      else
        var show := store.shows[booking.show];
        var freed := show.(occupiedSeats := RemoveSeats(show.occupiedSeats, booking.bookedSeats));
        Success(Store(store.bookings - {id}, store.shows[booking.show := freed]))
  }

  /** Removing a label that is not present leaves the occupancy unchanged. */
  lemma RemoveAbsentSeat(occupied: map<Seat, UserId>, s: Seat)
    requires s !in occupied
    ensures RemoveSeats(occupied, [s]) == occupied
  {
    var r := RemoveSeats(occupied, [s]);
    assert r.Keys == occupied.Keys;
  }

  /** Seat removal is idempotent: a second pass over the same labels finds
      nothing left to delete. */
  lemma RemoveSeatsIdempotent(occupied: map<Seat, UserId>, seats: seq<Seat>)
    ensures RemoveSeats(RemoveSeats(occupied, seats), seats) == RemoveSeats(occupied, seats)
  {
    var once := RemoveSeats(occupied, seats);
    var twice := RemoveSeats(once, seats);
    assert twice.Keys == once.Keys;
  }

  /** The order in which the labels are deleted does not matter, nor do
      repeated labels: only the set of labels counts. */
  lemma RemoveSeatsDependsOnLabelsOnly(occupied: map<Seat, UserId>, seats1: seq<Seat>, seats2: seq<Seat>)
    requires forall s :: s in seats1 <==> s in seats2
    ensures RemoveSeats(occupied, seats1) == RemoveSeats(occupied, seats2)
  {
    var r1 := RemoveSeats(occupied, seats1);
    var r2 := RemoveSeats(occupied, seats2);
    assert r1.Keys == r2.Keys;
  }

  /** Running the step again after it released a booking does not release
      anything twice: the booking is gone, so the lookup fails before any
      state is touched. */
  lemma ReleaseTwiceFails(store: Store, id: BookingId)
    requires id in store.bookings && !store.bookings[id].isPaid
    requires Release(store, id).Success?
    ensures Release(Release(store, id).value, id) == Failure(BookingNotFound)
  {
  }

  /** A label of the booking is freed even when the show records another
      user as its holder: the step never compares holders. */
  lemma ReleaseIgnoresHolder(store: Store, id: BookingId, s: Seat)
    requires id in store.bookings && !store.bookings[id].isPaid
    requires store.bookings[id].show in store.shows
    requires s in store.bookings[id].bookedSeats
    requires s in store.shows[store.bookings[id].show].occupiedSeats
    requires store.shows[store.bookings[id].show].occupiedSeats[s] != store.bookings[id].user
    ensures Release(store, id).Success?
    ensures s !in Release(store, id).value.shows[store.bookings[id].show].occupiedSeats
  {
  }

  /** Booking `b` holds its seats: its show exists and records the booking's
      user as the holder of every label it booked. */
  ghost predicate HoldsSeats(shows: Shows, b: Booking)
  {
    && b.show in shows
    && forall s :: s in b.bookedSeats ==>
         s in shows[b.show].occupiedSeats && shows[b.show].occupiedSeats[s] == b.user
  }

  /** Every booking in the store holds its seats. */
  ghost predicate Consistent(store: Store)
  {
    forall k :: k in store.bookings ==> HoldsSeats(store.shows, store.bookings[k])
  }

  /** No seat label is booked by two distinct bookings of the same show. */
  ghost predicate LabelsExclusive(bookings: Bookings)
  {
    forall k1, k2, s ::
      (k1 in bookings && k2 in bookings && k1 != k2 && bookings[k1].show == bookings[k2].show
       && s in bookings[k1].bookedSeats) ==> s !in bookings[k2].bookedSeats
  }

  /** Because the step frees exactly the labels this booking recorded, and
      never recomputes them from the show's current occupancy, it does not
      take a seat away from any other booking whose labels are its own.
      Every remaining booking still holds its seats afterwards. */
  lemma ReleaseKeepsOtherBookingsSeats(store: Store, id: BookingId)
    requires Consistent(store)
    requires LabelsExclusive(store.bookings)
    requires Release(store, id).Success?
    ensures Consistent(Release(store, id).value)
    ensures LabelsExclusive(Release(store, id).value.bookings)
  {
    var after := Release(store, id).value;
    var b := store.bookings[id];
    if !b.isPaid {
      forall k | k in after.bookings
        ensures HoldsSeats(after.shows, after.bookings[k])
      {
        var other := store.bookings[k];
        assert after.bookings[k] == other;
        assert HoldsSeats(store.shows, other);
        if other.show == b.show {
          forall s | s in other.bookedSeats
            ensures s in after.shows[b.show].occupiedSeats
            ensures after.shows[b.show].occupiedSeats[s] == other.user
          {
            assert s !in b.bookedSeats;
          }
        }
      }
    }
  }

  /** Without label exclusivity the preservation above fails: two bookings
      of one user on one show both record "A1", the unpaid one is released,
      and the paid one no longer holds its seat. */
  lemma ReleaseNeedsExclusiveLabels()
    ensures
      var unpaid := Booking("u1", "s1", ["A1"], false);
      var paid := Booking("u1", "s1", ["A1"], true);
      var store := Store(map["b1" := unpaid, "b2" := paid],
                         map["s1" := Show("m1", 0, map["A1" := "u1"])]);
      && Consistent(store)
      && !LabelsExclusive(store.bookings)
      && Release(store, "b1").Success?
      && !Consistent(Release(store, "b1").value)
  {
    var unpaid := Booking("u1", "s1", ["A1"], false);
    var paid := Booking("u1", "s1", ["A1"], true);
    var store := Store(map["b1" := unpaid, "b2" := paid],
                       map["s1" := Show("m1", 0, map["A1" := "u1"])]);
    assert "b1" != "b2";
    assert "A1" in unpaid.bookedSeats;
    var after := Release(store, "b1").value;
    assert "b2" in after.bookings && after.bookings["b2"] == paid;
    assert "A1" !in after.shows["s1"].occupiedSeats;
    assert !HoldsSeats(after.shows, paid);
  }
}
