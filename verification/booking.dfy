/**
 "Proceed to Payment" and the commit that follows a paid booking. The payment
 dialog is driven by its events; what `ShowModal` returned (OK from the
 dialog's own scheduled close, or CANCEL from its Cancel button) is an input.
 */
module Booking {
  import opened Seats
  import opened BookedSeats
  import opened Catalog
  import opened SeatSession
  import opened Payment

  /** The value `ShowModal` returns for the payment dialog. */
  datatype DialogResult = IdOk | IdCancel

  /**
   What a click on "Proceed to Payment" led to: nothing (empty selection),
   a booking (the seat dialog then closes), or a cancelled or failed payment
   (a warning; the seat dialog stays open as it was).
   */
  datatype Outcome = NothingSelected | Booked | PaymentNotConfirmed

  datatype Proceeded = Proceeded(db: Store, session: Session, outcome: Outcome)

  /** `final_book_seats`: append the selection to the movie's booked list. */
  function FinalBookSeats(db: Store, s: Session): (r: Store)
    ensures BookedFor(r, s.movieId) == BookedFor(db, s.movieId) + s.selected
    ensures forall k :: k != s.movieId ==> BookedFor(r, k) == BookedFor(db, k)
  {
    Commit(db, s.movieId, s.selected)
  }

  /**
   `on_proceed_to_payment`. An empty selection returns at once. Otherwise a
   payment dialog for the session's total handles `events`; the seats are
   committed only if the dialog returned OK and the payment is successful.
   The seat session itself is never changed here.
   */
  function ProceedToPayment(db: Store, s: Session, events: seq<PayEvent>, result: DialogResult): (r: Proceeded)
    ensures r.session == s
    ensures |s.selected| == 0 ==> r.outcome == NothingSelected && r.db == db
    ensures r.outcome == Booked <==>
      |s.selected| > 0 && result == IdOk && Run(NewDialog(s.total), events).successful
    ensures r.outcome != Booked ==> r.db == db
    ensures r.outcome == Booked ==>
      && BookedFor(r.db, s.movieId) == BookedFor(db, s.movieId) + s.selected
      && forall k :: k != s.movieId ==> BookedFor(r.db, k) == BookedFor(db, k)
  {
    if |s.selected| == 0 then Proceeded(db, s, NothingSelected)
    else
      var payment := Run(NewDialog(s.total), events);
      if result == IdOk && payment.successful then Proceeded(FinalBookSeats(db, s), s, Booked)
      else Proceeded(db, s, PaymentNotConfirmed)
  }

  /**
   With one click on Pay followed by `n` timer ticks, a booking happens if
   and only if something is selected, the card number has at least 16
   characters and the CVV at least 3, at least 20 ticks arrived, and the
   dialog returned OK.
   */
  lemma BookedIff(db: Store, s: Session, card: string, expiry: string, cvv: string, n: nat,
                  result: DialogResult)
    ensures ProceedToPayment(db, s, [PayClick(card, expiry, cvv)] + TickEvents(n), result).outcome == Booked
        <==> && |s.selected| > 0
             && |card| >= CardMinLength && |cvv| >= CvvMinLength
             && n >= TicksToComplete
             && result == IdOk
  {
    PayThenTicks(s.total, card, expiry, cvv, n);
  }

  /**
   A payment dialog in which no Pay click passed validation never leads to
   a booking, whatever the dialog returned: the store is untouched.
   */
  lemma NoValidPayNoBooking(db: Store, s: Session, events: seq<PayEvent>, result: DialogResult)
    requires forall i :: 0 <= i < |events| && events[i].PayClick? ==>
      !DetailsAccepted(events[i].card, events[i].cvv)
    ensures ProceedToPayment(db, s, events, result).db == db
    ensures ProceedToPayment(db, s, events, result).outcome != Booked
  {
    NoAcceptedPayNoProgress(s.total, events);
  }

  /**
   The commit trusts the snapshot its dialog read when it opened. Two seat
   dialogs opened on the same store and clicked alike are the same session;
   if both are paid for, every seat they picked is stored twice. The
   application never has two seat dialogs open at once (each is modal), so
   this needs a second, concurrent session.
   */
  lemma StaleSnapshotSellsTwice(db: Store, s: Session, events: seq<PayEvent>)
    requires |s.selected| > 0
    requires Run(NewDialog(s.total), events).successful
    ensures var db1 := ProceedToPayment(db, s, events, IdOk).db;
      var db2 := ProceedToPayment(db1, s, events, IdOk).db;
      && BookedFor(db2, s.movieId) == BookedFor(db, s.movieId) + s.selected + s.selected
      && !WellFormed(db2)
  {
    var db1 := ProceedToPayment(db, s, events, IdOk).db;
    var db2 := ProceedToPayment(db1, s, events, IdOk).db;
    var l := BookedFor(db2, s.movieId);
    var b := |BookedFor(db, s.movieId)|;
    assert l[b] == s.selected[0] == l[b + |s.selected|];
    assert s.movieId in db2;
  }

  /**
   Booking the selection of a dialog whose snapshot is the current store
   keeps the store well formed.
   */
  lemma BookingKeepsWellFormed(db: Store, s: Session)
    requires Valid(s)
    ensures WellFormed(db) && s.booked == BookedFor(db, s.movieId) ==> WellFormed(FinalBookSeats(db, s))
  {
    SelectionBookable(s);
    if WellFormed(db) && s.booked == BookedFor(db, s.movieId) {
      CommitKeepsWellFormed(db, s.movieId, s.selected);
    }
  }

  /** What the user does inside an open seat dialog. */
  datatype SessionStep =
    | ClickSeat(seat: Seat)
    | ClickProceed(events: seq<PayEvent>, result: DialogResult)

  /** One "Book Now" click on a movie card and what follows in its seat dialog. */
  datatype Visit = Visit(movie: Movie, steps: seq<SessionStep>)

  /**
   The store after an open seat dialog handles `steps`: seat clicks change
   the session, a proceed that books closes the dialog, any other proceed
   leaves it open as it was. Running out of steps is closing it with Cancel.
   Run on a dialog opened against `db`, the store only grows and stays well
   formed.
   */
  function RunSession(db: Store, s: Session, steps: seq<SessionStep>): (r: Store)
    requires Valid(s)
    ensures forall k :: BookedFor(db, k) <= BookedFor(r, k)
    ensures WellFormed(db) && s.booked == BookedFor(db, s.movieId) ==> WellFormed(r)
    decreases |steps|
  {
    if steps == [] then db
    else match steps[0]
      case ClickSeat(x) => RunSession(db, Click(s, x), steps[1..])
      case ClickProceed(events, result) =>
        var p := ProceedToPayment(db, s, events, result);
        if p.outcome == Booked then
          BookingKeepsWellFormed(db, s);
          p.db
        else RunSession(db, s, steps[1..])
  }

  /**
   The store after a sequence of visits, each opening a fresh seat dialog
   that reads the store as the previous visits left it.
   */
  function RunApp(db: Store, visits: seq<Visit>): (r: Store)
    ensures forall k :: BookedFor(db, k) <= BookedFor(r, k)
    ensures WellFormed(db) ==> WellFormed(r)
    decreases |visits|
  {
    if visits == [] then db
    else
      var db' := RunSession(db, Open(db, visits[0].movie), visits[0].steps);
      RunApp(db', visits[1..])
  }

  /**
   Starting from the seeded data, however the application is used, no seat is
   ever sold twice, every sold seat is on the grid, and no seeded booking is
   lost.
   */
  lemma SeededAppNeverSellsTwice(visits: seq<Visit>)
    ensures WellFormed(RunApp(SeededBookings, visits))
    ensures forall k :: BookedFor(SeededBookings, k) <= BookedFor(RunApp(SeededBookings, visits), k)
  {
    SeedConsistent();
  }

  /** The card details the payment form is pre-filled with. */
  const PrefilledPay: PayEvent := PayClick("1234567890123456", "12/26", "123")

  /**
   A walk through the seeded data: Inception (id 3, 11.50, seat C3 sold).
   Clicking A1 and A2 selects both for a total of 23.00; clicking C3 does
   nothing. Paying with the pre-filled card and waiting 20 ticks stores A1
   and A2 after C3; cancelling the payment leaves the store as seeded.
   */
  lemma InceptionWalkthrough()
    ensures var s := Click(Click(Click(Open(SeededBookings, Movies[2]), Seat(0, 0)), Seat(0, 1)), Seat(2, 2));
      && s.selected == [Seat(0, 0), Seat(0, 1)]
      && s.total == 2300
      && BookedFor(ProceedToPayment(SeededBookings, s, [PrefilledPay] + TickEvents(20), IdOk).db, 3)
         == [Seat(2, 2), Seat(0, 0), Seat(0, 1)]
      && ProceedToPayment(SeededBookings, s, [PrefilledPay] + TickEvents(20), IdCancel).db == SeededBookings
  {
    var s0 := Open(SeededBookings, Movies[2]);
    assert s0.booked == [Seat(2, 2)] && s0.price == 1150 && s0.movieId == 3;
    SelectA1A2(s0);
    var s2 := Click(Click(s0, Seat(0, 0)), Seat(0, 1));
    assert !Clickable(s2, Seat(2, 2));
    var s := Click(s2, Seat(2, 2));
    assert s == s2;
    BookedIff(SeededBookings, s, "1234567890123456", "12/26", "123", 20, IdOk);
  }
}
