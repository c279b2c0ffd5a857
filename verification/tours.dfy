/** The tour record of `frontend/src/scripts/tours.js` and the invariants
    the rest of the model states about lists of them. */
module Tours {
  import opened Wrappers

  /** The lifecycle tag of a tour, as offered by the form's status select. */
  datatype Status = Active | Draft | Pending

  /** One bookable listing. `price` and `rating` are JavaScript numbers, read
      here as reals; `rating` is `None` where the record holds `null`. */
  datatype Tour = Tour(
    id: int,
    title: string,
    description: string,
    price: real,
    currency: string,
    bookings: int,
    rating: Option<real>,
    status: Status,
    imageClass: string,
    category: string,
    duration: int,
    maxGroupSize: int,
    includedItems: seq<string>,
    meetingPoint: string
  )

  /** The currency every tour created through the form carries. */
  const Currency: string := "MXN"

  /** The decorative image labels a new tour is given one of. */
  const ImageClasses: seq<string> := [
    "active-tour", "teotihuacan", "architecture", "coyoacan", "xochimilco",
    "street-art", "lucha-libre", "cantinas", "markets", "chapultepec"
  ]

  /** The banner kinds `showAlert` is called with. */
  datatype AlertKind = Success | Danger | Info

  /** A notification banner: its message and its kind. */
  datatype Alert = Alert(message: string, kind: AlertKind)

  /** Field ranges of a well-formed tour: price not negative, duration of
      one to twelve hours, groups of one to fifty people, no negative
      booking count, and a rating between 0 and 5 when there is one. */
  predicate InRange(t: Tour) {
    && t.price >= 0.0
    && 1 <= t.duration <= 12
    && 1 <= t.maxGroupSize <= 50
    && t.bookings >= 0
    && (t.rating.Some? ==> 0.0 <= t.rating.value <= 5.0)
  }

  predicate AllInRange(ts: seq<Tour>) {
    forall i :: 0 <= i < |ts| ==> InRange(ts[i])
  }

  /** The i-th tour (from 0) has identifier i + 1. */
  predicate SequentialIds(ts: seq<Tour>) {
    forall i :: 0 <= i < |ts| ==> ts[i].id == i + 1
  }

  predicate UniqueIds(ts: seq<Tour>) {
    forall i, j :: 0 <= i < j < |ts| ==> ts[i].id != ts[j].id
  }

  /** Identifiers numbered by position are distinct. */
  lemma SequentialIdsAreUnique(ts: seq<Tour>)
    requires SequentialIds(ts)
    ensures UniqueIds(ts)
  {
  }

}
