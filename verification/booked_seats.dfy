/**
 The in-memory "database" of sold seats: a map from a movie id to the list of
 coordinates already booked for it. It is read with a get-or-empty lookup and
 written only by the commit at the end of a paid booking, which appends.
 */
module BookedSeats {
  import opened Seats

  type Store = map<int, seq<Seat>>

  /** `BOOKED_SEATS_DB.get(id, [])`: the booked list, or the empty list for an id never stored. */
  function BookedFor(db: Store, id: int): (r: seq<Seat>)
    ensures id in db ==> r == db[id]
    ensures id !in db ==> r == []
  {
    if id in db then db[id] else []
  }

  /**
   `BOOKED_SEATS_DB[id] = BOOKED_SEATS_DB.get(id, []) + seats`: an unconditional
   append. No seat in `seats` is checked against the list it is appended to.
   */
  function Commit(db: Store, id: int, seats: seq<Seat>): (r: Store)
    ensures r.Keys == db.Keys + {id}
    ensures BookedFor(r, id) == BookedFor(db, id) + seats
    ensures id !in db ==> r[id] == seats
    ensures forall k :: k != id ==> BookedFor(r, k) == BookedFor(db, k)
  {
    db[id := BookedFor(db, id) + seats]
  }

  /** Every stored list lies inside the grid and sells no seat twice. */
  ghost predicate WellFormed(db: Store) {
    forall id :: id in db ==> NoDup(db[id]) && forall s :: s in db[id] ==> InGrid(s)
  }

  /**
   A commit only grows the store: every list it held before is a prefix of the
   list held afterwards, so no booking is ever lost or reordered.
   */
  lemma CommitOnlyGrows(db: Store, id: int, seats: seq<Seat>, k: int)
    ensures BookedFor(db, k) <= BookedFor(Commit(db, id, seats), k)
    ensures |BookedFor(Commit(db, id, seats), k)| == |BookedFor(db, k)| + (if k == id then |seats| else 0)
  {
  }

  /**
   Committing in-grid seats that are pairwise distinct and not already booked
   for that movie keeps the store well formed.
   */
  lemma CommitKeepsWellFormed(db: Store, id: int, seats: seq<Seat>)
    requires WellFormed(db)
    requires NoDup(seats)
    requires forall s :: s in seats ==> InGrid(s) && s !in BookedFor(db, id)
    ensures WellFormed(Commit(db, id, seats))
  {
    var r := Commit(db, id, seats);
    ConcatDisjointNoDup(BookedFor(db, id), seats);
    forall k | k in r
      ensures NoDup(r[k]) && forall s :: s in r[k] ==> InGrid(s)
    {
      assert r[k] == BookedFor(r, k);
    }
  }
}
