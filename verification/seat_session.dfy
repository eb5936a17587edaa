/**
 The seat selection dialog as pure state. Opening it takes one snapshot of the
 movie's booked list; booked seats get a disabled button, every other grid
 seat a toggle button whose click appends the seat to, or removes it from,
 the selection, after which the total and the proceed button are refreshed.
 */
module SeatSession {
  import opened Seats
  import opened BookedSeats
  import opened Catalog

  /**
   `movieId` and `price` (cents) come from the movie; `booked` is the
   snapshot read when the dialog opened; `pressed` is the value of each
   seat's toggle button; `selected` is `selected_seats` in insertion order;
   `total` is `total_amount` in cents; `proceedEnabled` is the state of the
   "Proceed to Payment" button.
   */
  datatype Session = Session(
    movieId: int,
    price: nat,
    booked: seq<Seat>,
    pressed: map<Seat, bool>,
    selected: seq<Seat>,
    total: int,
    proceedEnabled: bool)

  /**
   The states the dialog can be in: one button per grid seat; the selection
   holds no seat twice and holds exactly the seats whose button is pressed;
   no selected seat is in the booked snapshot; the total is the seat count
   times the price; proceeding is enabled exactly when something is selected.
   */
  ghost predicate Valid(s: Session) {
    && s.pressed.Keys == Grid()
    && NoDup(s.selected)
    && (forall x :: x in s.selected <==> x in s.pressed && s.pressed[x])
    && (forall x :: x in s.selected ==> x !in s.booked)
    && s.total == |s.selected| * s.price
    && (s.proceedEnabled <==> |s.selected| > 0)
  }

  /**
   A seat button delivers clicks only if it exists (the seat is on the grid)
   and was bound to the click handler (the seat was not in the snapshot).
   */
  predicate Clickable(s: Session, x: Seat) {
    InGrid(x) && x !in s.booked
  }

  /**
   The dialog as it opens for `movie` against the store: the booked list is
   read once (an unknown id reads as empty), no button is pressed, nothing is
   selected, the total shows 0 and proceeding is disabled.
   */
  function Open(db: Store, movie: Movie): (s: Session)
    ensures Valid(s)
    ensures s.movieId == movie.id && s.price == movie.priceCents
    ensures s.booked == (if movie.id in db then db[movie.id] else [])
    ensures s.selected == [] && s.total == 0 && !s.proceedEnabled
    ensures forall x :: InGrid(x) ==> x in s.pressed && !s.pressed[x]
  {
    Session(movie.id, movie.priceCents, BookedFor(db, movie.id),
            map x | x in Grid() :: false, [], 0, false)
  }

  /**
   `update_totals`: afterwards the total is the seat count times the price and
   proceeding is enabled iff the count is positive; nothing else changes.
   */
  function UpdateTotals(s: Session): (r: Session)
    ensures r.total == |r.selected| * r.price
    ensures r.proceedEnabled <==> |r.selected| > 0
    ensures r == s.(total := r.total, proceedEnabled := r.proceedEnabled)
  {
    s.(total := |s.selected| * s.price, proceedEnabled := |s.selected| > 0)
  }

  /**
   A click on seat `x`. Clicks on booked or off-grid seats are never
   delivered. Otherwise the toggle button flips; if it is now pressed the
   seat is appended to the selection, else it is removed; then the totals
   are refreshed.
   */
  function Click(s: Session, x: Seat): (r: Session)
    requires Valid(s)
    ensures Valid(r)
    ensures !Clickable(s, x) ==> r == s
    ensures Clickable(s, x) && x !in s.selected ==> r.selected == s.selected + [x]
    ensures Clickable(s, x) && x in s.selected ==>
      r.selected == RemoveFirst(s.selected, x) && x !in r.selected
    ensures Clickable(s, x) ==> r.pressed == s.pressed[x := x !in s.selected]
    ensures Clickable(s, x) ==> (x in r.selected <==> x !in s.selected)
    ensures forall y :: y != x ==> (y in r.selected <==> y in s.selected)
    ensures r.movieId == s.movieId && r.price == s.price && r.booked == s.booked
  {
    if !Clickable(s, x) then s
    else
      var on := !s.pressed[x];
      if on then
        AppendFreshNoDup(s.selected, x);
        UpdateTotals(s.(pressed := s.pressed[x := true], selected := s.selected + [x]))
      else
        RemoveFirstNoDup(s.selected, x);
        assert forall y :: y != x ==> (y in RemoveFirst(s.selected, x) <==> y in s.selected) by {
          forall y | y != x
            ensures y in RemoveFirst(s.selected, x) <==> y in s.selected
          {
            RemoveFirstKeepsOthers(s.selected, x, y);
          }
        }
        UpdateTotals(s.(pressed := s.pressed[x := false], selected := RemoveFirst(s.selected, x)))
  }

  /** The session after a sequence of clicks, handled in order. */
  function Clicks(s: Session, xs: seq<Seat>): (r: Session)
    requires Valid(s)
    ensures Valid(r)
    ensures r.movieId == s.movieId && r.price == s.price && r.booked == s.booked
    decreases |xs|
  {
    if xs == [] then s else Clicks(Click(s, xs[0]), xs[1..])
  }

  /**
   A delivered click on a seat that is not selected presses its button,
   appends it, raises the total by one ticket price and enables proceeding.
   */
  lemma ClickOnUnselected(s: Session, x: Seat)
    requires Valid(s) && Clickable(s, x) && x !in s.selected
    ensures Click(s, x).pressed == s.pressed[x := true]
    ensures Click(s, x).selected == s.selected + [x]
    ensures Click(s, x).total == s.total + s.price
    ensures Click(s, x).proceedEnabled
  {
    var r := Click(s, x);
    assert |r.selected| == |s.selected| + 1;
    OneTicketLess(|s.selected| + 1, s.price);
  }

  /**
   A delivered click on a selected seat releases its button, removes it,
   lowers the total by one ticket price and enables proceeding iff another
   seat is still selected.
   */
  lemma ClickOnSelected(s: Session, x: Seat)
    requires Valid(s) && Clickable(s, x) && x in s.selected
    ensures Click(s, x).pressed == s.pressed[x := false]
    ensures Click(s, x).selected == RemoveFirst(s.selected, x)
    ensures Click(s, x).total == s.total - s.price
    ensures Click(s, x).proceedEnabled <==> |s.selected| > 1
  {
    var r := Click(s, x);
    assert |r.selected| == |s.selected| - 1;
    OneTicketLess(|s.selected|, s.price);
  }

  /** One seat fewer costs one ticket price less. */
  lemma OneTicketLess(n: int, p: int)
    ensures (n - 1) * p == n * p - p
  {
  }

  /** Overwriting a key and then writing its old value back gives the map back. */
  lemma UpdateThenRestore<K, V>(m: map<K, V>, k: K, v: V)
    requires k in m
    ensures m[k := v][k := m[k]] == m
  {
  }

  /**
   Clicking a seat that is not selected twice in a row gives back exactly
   the session it started from: the same list in the same order, the same
   buttons and the same total.
   */
  lemma ClickTwiceUnselected(s: Session, x: Seat)
    requires Valid(s) && x !in s.selected
    ensures Click(Click(s, x), x) == s
  {
    if Clickable(s, x) {
      var s1 := Click(s, x);
      var s2 := Click(s1, x);
      ClickOnUnselected(s, x);
      ClickOnSelected(s1, x);
      assert x in s.pressed && !s.pressed[x];
      UpdateThenRestore(s.pressed, x, true);
      assert s2.pressed == s.pressed;
      RemoveFirstOfAppended(s.selected, x);
      assert s2.selected == s.selected;
      assert s2.total == s.total;
      assert s2.proceedEnabled == s.proceedEnabled;
    }
  }

  /**
   Clicking a selected seat twice in a row gives back the same set of
   selected seats, the same buttons and the same total, but the seat moves to
   the end of the list.
   */
  lemma ClickTwiceSelected(s: Session, x: Seat)
    requires Valid(s) && x in s.selected
    ensures Click(Click(s, x), x).selected == RemoveFirst(s.selected, x) + [x]
    ensures multiset(Click(Click(s, x), x).selected) == multiset(s.selected)
    ensures Click(Click(s, x), x).pressed == s.pressed
    ensures Click(Click(s, x), x).total == s.total
  {
    ClickOnSelected(s, x);
    var s1 := Click(s, x);
    ClickOnUnselected(s1, x);
    assert x in s.pressed && s.pressed[x];
    UpdateThenRestore(s.pressed, x, false);
  }

  /** From an empty selection, clicks on free seats A1 then A2 select them in that order. */
  lemma SelectA1A2(s: Session)
    requires Valid(s) && s.selected == []
    requires Clickable(s, Seat(0, 0)) && Clickable(s, Seat(0, 1))
    ensures Click(Click(s, Seat(0, 0)), Seat(0, 1)).selected == [Seat(0, 0), Seat(0, 1)]
  {
    assert Click(s, Seat(0, 0)).selected == [Seat(0, 0)];
  }

  /**
   The insertion order can change: in a session holding seats A1 and A2, two
   clicks on A1 leave the list as A2, A1.
   */
  lemma ClickTwiceReorders(s: Session)
    requires Valid(s) && s.selected == [Seat(0, 0), Seat(0, 1)]
    ensures Click(Click(s, Seat(0, 0)), Seat(0, 0)).selected == [Seat(0, 1), Seat(0, 0)]
  {
    ClickTwiceSelected(s, Seat(0, 0));
    RemoveFirstOfHead(s.selected, Seat(0, 0));
  }

  /** A valid session selects distinct grid seats outside its snapshot. */
  lemma SelectionBookable(s: Session)
    requires Valid(s)
    ensures NoDup(s.selected)
    ensures forall x :: x in s.selected ==> InGrid(x) && x !in s.booked
  {
    forall x | x in s.selected
      ensures InGrid(x)
    {
      assert x in s.pressed;
    }
  }

  /**
   Every session reachable from the opened dialog by clicks keeps its
   selection clear of the snapshot and its total equal to count times price.
   */
  lemma ReachableSessions(db: Store, movie: Movie, xs: seq<Seat>)
    ensures var s := Clicks(Open(db, movie), xs);
      && NoDup(s.selected)
      && (forall x :: x in s.selected ==> InGrid(x) && x !in BookedFor(db, movie.id))
      && s.total == |s.selected| * movie.priceCents
      && (s.proceedEnabled <==> |s.selected| > 0)
  {
    SelectionBookable(Clicks(Open(db, movie), xs));
  }
}
