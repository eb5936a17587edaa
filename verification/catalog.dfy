/**
 The hard-coded mock data the application starts from: the four movies on
 offer and the seats already sold for each of them.
 */
module Catalog {
  import opened Seats
  import opened BookedSeats

  /** A movie record. The ticket price is held in integer cents (12.00 is 1200). */
  datatype Movie = Movie(id: int, title: string, genre: string, priceCents: nat, description: string)

  /** `MOVIES`, in display order. */
  const Movies: seq<Movie> := [
    Movie(1, "Avengers: Endgame", "Action/Sci-Fi", 1200,
          "The Avengers take a final stand against Thanos."),
    Movie(2, "The Lion King", "Animation/Drama", 1000,
          "Simba idolizes his father, King Mufasa, and takes to heart his own royal destiny."),
    Movie(3, "Inception", "Sci-Fi/Thriller", 1150,
          "A thief who steals corporate secrets through the use of dream-sharing technology."),
    Movie(4, "Titanic", "Romance/Drama", 900,
          "A seventeen-year-old aristocrat falls in love with a kind but poor artist.")
  ]

  /** `BOOKED_SEATS_DB` as the process starts. */
  const SeededBookings: Store := map[
    1 := [Seat(0, 2), Seat(0, 3)],
    2 := [],
    3 := [Seat(2, 2)],
    4 := []
  ]

  /**
   The seed data is consistent: movie ids are distinct, every movie has a
   booked list, there is no list for a movie that does not exist, and the
   seeded lists are well formed.
   */
  lemma SeedConsistent()
    ensures forall i, j :: 0 <= i < j < |Movies| ==> Movies[i].id != Movies[j].id
    ensures forall i :: 0 <= i < |Movies| ==> Movies[i].id in SeededBookings
    ensures forall id :: id in SeededBookings ==> exists i :: 0 <= i < |Movies| && Movies[i].id == id
    ensures WellFormed(SeededBookings)
  {
    assert Movies[0].id == 1 && Movies[1].id == 2 && Movies[2].id == 3 && Movies[3].id == 4;
  }
}
