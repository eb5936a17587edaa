# BookMyShow booking core in Dafny

This project models the booking logic of `bookmyshow.py`. That program is a
wxPython desktop application that lists four movies. For a chosen movie it
shows a 5 x 6 seat grid, takes a mock card payment and records the booked
seats in an in-memory dictionary. All of this logic lives inside wx event
handlers. The model lifts it out as immutable state and pure transition
functions:

- `Seats` holds seat coordinates, the grid, `NoDup` (a list holding no seat
  twice) and `list.remove`, which deletes the first occurrence.
- `BookedSeats` is `BOOKED_SEATS_DB`, a map from movie id to a list of seats.
  It is read with `get(id, [])` and written by one unconditional append.
- `Catalog` holds the seed data `MOVIES` and the initial `BOOKED_SEATS_DB`.
  Prices are integer cents.
- `Payment` is `PaymentDialog`. `on_pay` checks only lengths and then starts
  the timer. Each `on_timer` tick raises the gauge by 5. At 100 the payment is
  successful and the dialog schedules its own close with OK.
- `SeatSession` is `SeatSelectionDialog`. It covers the booked snapshot read
  at open time, one toggle value per seat button, `selected_seats`, the total
  and the enabled state of the proceed button.
- `Booking` covers `on_proceed_to_payment` and `final_book_seats`. It also
  composes whole dialog sessions and sequences of them (`RunSession`,
  `RunApp`).

Some inputs come from wx, and the model takes them as parameters instead:

- Clicks on seats are seat coordinates.
- The Pay click carries the three text fields.
- A timer tick is an event.
- `ShowModal`'s return value is a `DialogResult`.

Events that wx cannot deliver are no-ops. This covers a click on a disabled
or unbound seat button, a click on a disabled Pay button, and a tick from a
stopped timer.

## Model

| member | source | states |
|---|---|---|
| Seats.Grid | bookmyshow.py:158-168 | the seat buttons exist for exactly the coordinates with row 0..4 and column 0..5 |
| Seats.FirstIndex | bookmyshow.py:212 | the index `list.remove` deletes at: a position holding the seat with no earlier occurrence of it |
| Seats.RemoveFirst | bookmyshow.py:212 | `selected_seats.remove(coord)` deletes the first occurrence and keeps the rest in order: the result is the list before it followed by the list after it, one shorter, with one copy of the seat fewer |
| Seats.RemoveFirstOfHead | bookmyshow.py:212 | removing the seat a list starts with leaves the rest of the list, in order |
| Seats.RemoveFirstKeepsOthers | bookmyshow.py:212 | removing a seat keeps every other seat in the list and adds none |
| Seats.RemoveFirstNoDup | bookmyshow.py:212 | in a duplicate-free list the removed seat is gone entirely and the list stays duplicate-free |
| Seats.RemoveFirstOfAppended | bookmyshow.py:209-212 | removing a seat just appended to a list not holding it gives back the original list, order included |
| Seats.ConcatDisjointNoDup | bookmyshow.py:249 | appending a duplicate-free list that shares no seat with a duplicate-free booked list gives a duplicate-free list |
| BookedSeats.BookedFor | bookmyshow.py:162 | `BOOKED_SEATS_DB.get(id, [])`: the stored list for a stored id, the empty list for any other |
| BookedSeats.Commit | bookmyshow.py:248-249 | the commit appends the seats after the existing list (an unknown id starts from the empty list), adds the id as a key, and leaves every other id's list unchanged |
| BookedSeats.CommitOnlyGrows | bookmyshow.py:248-249 | after a commit each id's former list is a prefix of its new list, which is longer by the appended count for that id and unchanged for others |
| BookedSeats.CommitKeepsWellFormed | bookmyshow.py:248-249 | committing distinct in-grid seats not already booked keeps every booked list duplicate-free and on the grid |
| Catalog.SeedConsistent | bookmyshow.py:6-19 | the seed data has distinct movie ids, one booked list per movie and none for absent movies, and its booked lists are duplicate-free and on the grid |
| Payment.NewDialog | bookmyshow.py:25-30 | a new payment dialog satisfies the dialog invariant, has Pay enabled, no running timer and `payment_successful` false, for the amount due |
| Payment.DetailsAccepted | bookmyshow.py:78 | details pass validation iff the card number has at least 16 characters and the CVV at least 3 |
| Payment.OnPay | bookmyshow.py:76-89 | a card shorter than 16 characters or a CVV shorter than 3 leaves the dialog unchanged and starts no timer; otherwise Pay is disabled, the label reads Processing and the timer runs from gauge 0 |
| Payment.ValidationIsLengthOnly | bookmyshow.py:78 | two Pay clicks whose card and CVV have equal lengths have the same effect, whatever their characters and whatever the expiry text |
| Payment.OnTimer | bookmyshow.py:91-107 | a tick raises the gauge by 5; the payment becomes successful and the timer stops exactly when the gauge reaches 100; the Authorizing label appears only at gauge 50; a stopped timer changes nothing |
| Payment.Handle | bookmyshow.py:76-107 | both handlers keep the dialog invariant (gauge a multiple of 5 within 0..100, success iff close scheduled iff gauge full) and never undo success |
| Payment.Run | bookmyshow.py:76-107 | any sequence of Pay clicks and ticks keeps the dialog invariant and the amount, and success once reached is kept |
| Payment.TicksFromStart | bookmyshow.py:89-107 | after the timer starts, n ticks give gauge 5n capped at 100; the payment is successful iff n >= 20; the timer runs iff n < 20; the label is Processing below 10 ticks, Authorizing from 10, Payment Successful from 20 |
| Payment.TicksWhenStopped | bookmyshow.py:95-96 | once the timer is stopped, or was never started, further ticks change nothing |
| Payment.RunTicks | bookmyshow.py:91-97 | delivering n tick events one by one is the same as applying n ticks |
| Payment.NoAcceptedPayNoProgress | bookmyshow.py:76-89 | until a Pay click passes validation the dialog stays exactly as opened, so no timer runs and the payment cannot succeed |
| Payment.PayThenTicks | bookmyshow.py:76-107 | one Pay click followed by n ticks makes the payment successful iff the card has at least 16 characters, the CVV at least 3 and n >= 20 |
| SeatSession.Open | bookmyshow.py:129-196 | a new seat dialog has its snapshot equal to the stored list for the movie (empty for an unknown id), every button released, no selection, total 0 and proceed disabled, and satisfies the session invariant |
| SeatSession.Click | bookmyshow.py:205-224 | a click on a booked or off-grid seat changes nothing; otherwise the seat's button flips, an unselected seat is appended and a selected one's first occurrence is spliced out with the order kept, no other seat's membership changes, and the invariant holds: no duplicates, selection equals the pressed buttons, disjoint from the booked snapshot, total = count x price, proceed enabled iff count > 0 |
| SeatSession.Clicks | bookmyshow.py:205-224 | any sequence of clicks keeps the session invariant and never changes the movie, price or snapshot |
| SeatSession.UpdateTotals | bookmyshow.py:216-224 | afterwards the total is the seat count times the ticket price and proceed is enabled iff the count is positive; selection, buttons, movie and snapshot are untouched |
| SeatSession.ClickOnUnselected | bookmyshow.py:205-224 | a delivered click on an unselected seat raises the total by exactly one ticket price and enables proceed, besides pressing and appending the seat |
| SeatSession.ClickOnSelected | bookmyshow.py:205-224 | a delivered click on a selected seat lowers the total by exactly one ticket price and leaves proceed enabled iff another seat stays selected, besides releasing and removing the seat |
| SeatSession.ClickTwiceUnselected | bookmyshow.py:205-218 | clicking an unselected seat twice gives back exactly the starting session: same list in the same order, same buttons, same total |
| SeatSession.ClickTwiceSelected | bookmyshow.py:205-218 | clicking a selected seat twice gives back the same multiset of seats, buttons and total, with that seat moved to the end of the list |
| SeatSession.SelectA1A2 | bookmyshow.py:209-210 | from an empty selection, clicking free seats A1 then A2 selects them in that order |
| SeatSession.ClickTwiceReorders | bookmyshow.py:209-212 | with A1 and A2 selected, two clicks on A1 leave the list as A2, A1, so the exact round trip holds only from an unselected seat |
| SeatSession.SelectionBookable | bookmyshow.py:162-178 | every selected seat is on the grid and outside the booked snapshot, and the selection has no duplicates |
| SeatSession.ReachableSessions | bookmyshow.py:162-224 | in every session reachable from a newly opened dialog, the selection is duplicate-free, on the grid and disjoint from the stored list, its total is count x the movie's price, and proceed is enabled iff something is selected |
| Booking.FinalBookSeats | bookmyshow.py:244-249 | the booked list of the session's movie becomes the old list followed by the selection; other movies are unaffected |
| Booking.ProceedToPayment | bookmyshow.py:227-241 | an empty selection does nothing; otherwise the store changes iff the payment dialog returned OK and its payment is successful, and then by appending the selection; the seat session is never changed |
| Booking.BookedIff | bookmyshow.py:227-239 | with one Pay click and n ticks, a booking happens iff something is selected, card length >= 16, CVV length >= 3, n >= 20 and the dialog returned OK |
| Booking.NoValidPayNoBooking | bookmyshow.py:78-80 | if no Pay click passes validation, no booking happens and the store is untouched, whatever the dialog returned |
| Booking.StaleSnapshotSellsTwice | bookmyshow.py:248-249 | the commit does not check its snapshot against the store: paying twice for identical sessions stores every picked seat twice and breaks well-formedness |
| Booking.BookingKeepsWellFormed | bookmyshow.py:244-249 | booking from a dialog whose snapshot is the current store keeps every booked list duplicate-free and on the grid |
| Booking.RunSession | bookmyshow.py:205-254 | a whole seat-dialog session (clicks, failed payments, at most one booking) only grows the store and keeps it well formed when its snapshot is the current store |
| Booking.RunApp | bookmyshow.py:297-302 | any sequence of "Book Now" visits, each reading the store left by the previous one, only grows the store and keeps it well formed |
| Booking.SeededAppNeverSellsTwice | bookmyshow.py:14-19 | from the seeded bookings, however the application is used, no seat is sold twice, all sold seats are on the grid, and no seeded booking is lost |
| Booking.InceptionWalkthrough | bookmyshow.py:205-249 | Inception (price 11.50, C3 sold): clicking A1, A2 and C3 selects A1 and A2 for 23.00; paying with the pre-filled card and 20 ticks stores C3, A1, A2; cancelling leaves the seeded store |

## Left out

- Widget construction, sizers, fonts, colours, seat labels such as "A1", message boxes, `MoviePanel.on_paint`, `SeatButton.on_toggle` colouring and `MainFrame`. These are presentation only.
- wx timer scheduling (100 ms ticks, the one-second `CallLater`) and modal-dialog mechanics. Each tick and each `ShowModal` result is an input event. `closeScheduled` records that `EndModal(wx.ID_OK)` was queued, but the result is not tied to it: the code checks both the result and `payment_successful`, and the model keeps both checks.
- Float prices and `:.2f` formatting. Prices and totals are integer cents, so `count * price` is exact.
- `total_amount` before the first click: Python has no such attribute yet. The model starts the total at 0, which is the value the label shows.
- Movie titles, genres and descriptions are opaque strings. Nothing depends on them.
- Unicode: Python's `len` counts code points. Dafny strings are sequences of Unicode scalar values, so the lengths agree.
- Features the code does not have: an `InvalidSeat` error, an `EmptySelection` error, a `SeatConflict` check, locking, stale-read detection, `UserCancelled`, and seat release or refund. The code has none of them:
  - a click on a booked seat is simply never delivered;
  - proceeding with nothing selected returns silently;
  - the commit is an unconditional list append against the snapshot read when the dialog opened.
  The model follows the code. `StaleSnapshotSellsTwice` shows what the missing check allows once two sessions overlap. The application never opens two seat dialogs at once, and `SeededAppNeverSellsTwice` shows that sequential use is safe.
- Booked lists are lists, not sets. The model keeps them as sequences in insertion order, as the code does.
