/** `saveTour` and `getRandomImageClass`: on a valid form one new record
    is appended to the tour list; on an invalid one the list is left alone. */
module Saving {
  import opened Wrappers
  import opened Text
  import opened Tours
  import opened Validation
  import opened Rendering

  /** `getRandomImageClass`, with the value of `Math.random()` passed in as
      `roll`: the label at index `floor(roll * 10)`. */
  function RandomImageClass(roll: real): (cls: string)
    requires 0.0 <= roll < 1.0
    ensures cls in ImageClasses
  {
    var i := (roll * |ImageClasses| as real).Floor;
    ImageClasses[i]
  }

  /** Every label can be drawn: a roll of `i / 10` lands on the i-th. */
  lemma EveryLabelCanBeDrawn(i: int)
    requires 0 <= i < |ImageClasses|
    ensures RandomImageClass(i as real / |ImageClasses| as real) == ImageClasses[i]
  {
    assert (i as real / 10.0) * 10.0 == i as real;
  }

  /** The included-items field as stored: the text split at each comma and
      every piece trimmed. There is one item more than there are commas; no
      item holds a comma or starts or ends with whitespace. */
  function IncludedItems(text: string): (items: seq<string>)
    ensures |items| == Count(text, ',') + 1
    ensures forall i :: 0 <= i < |items| ==> Trimmed(items[i]) && ',' !in items[i]
  {
    var pieces := Split(text, ',');
    var items := TrimEach(pieces);
    assert forall i :: 0 <= i < |items| ==> ',' !in items[i] by {
      forall i | 0 <= i < |items| ensures ',' !in items[i] {
        TrimIsSlice(pieces[i]);
        var k :| 0 <= k <= |pieces[i]| - |items[i]| && SpaceAround(pieces[i], k, items[i]);
        assert forall c :: c in items[i] ==> c in pieces[i];
      }
    }
    items
  }

  /** Each item is the trim of the matching comma-separated piece. */
  lemma IncludedItemsArePieces(text: string)
    ensures |IncludedItems(text)| == |Split(text, ',')|
    ensures forall i :: 0 <= i < |IncludedItems(text)| ==>
              IncludedItems(text)[i] == Trim(Split(text, ',')[i])
  {
  }

  /** The record `saveTour` builds from a form that passed validation, as
      the `n`-th plus one record of the list. */
  function NewTour(n: nat, f: FormInput, p: Parsers, roll: real): (t: Tour)
    requires Validate(f, p).isValid
    requires 0.0 <= roll < 1.0
    ensures Created(t, n, f, p)
  {
    ValidIffAcceptable(f, p);
    Tour(
      id := n + 1,
      title := Trim(f.title),
      description := Trim(f.description),
      price := p.parseFloat(f.price).value,
      currency := Currency,
      bookings := 0,
      rating := None,
      status := f.status,
      imageClass := RandomImageClass(roll),
      category := Trim(f.category),
      duration := p.parseInt(f.duration).value,
      maxGroupSize := p.parseInt(f.maxGroup).value,
      includedItems := IncludedItems(f.included),
      meetingPoint := Trim(f.meetingPoint)
    )
  }

  /** What the new record promises, field by field: the next identifier,
      no bookings, no rating, the fixed currency, the trimmed texts, a label
      from the image list, the numbers the form parsed to, and the ranges
      validation enforced on them. */
  predicate Created(t: Tour, n: nat, f: FormInput, p: Parsers) {
    && t.id == n + 1
    && t.bookings == 0
    && t.rating == None
    && t.currency == "MXN"
    && t.status == f.status
    && t.title == Trim(f.title) && Utf16Length(t.title) >= 5
    && t.description == Trim(f.description) && Utf16Length(t.description) >= 20
    && t.category == Trim(f.category) && t.category != ""
    && t.meetingPoint == Trim(f.meetingPoint) && Utf16Length(t.meetingPoint) >= 5
    && t.imageClass in ImageClasses
    && p.parseFloat(f.price) == Some(t.price) && t.price >= 0.0
    && p.parseInt(f.duration) == Some(t.duration) && 1 <= t.duration <= 12
    && p.parseInt(f.maxGroup) == Some(t.maxGroupSize) && 1 <= t.maxGroupSize <= 50
    && t.includedItems == IncludedItems(f.included)
  }

  /** The state `saveTour` leaves: the tour list and the banners raised. */
  datatype Submission = Submission(tours: seq<Tour>, alerts: seq<Alert>)

  const SavedAlert: Alert := Alert("Tour creado exitosamente", Success)

  /** `saveTour`. A form that fails validation leaves the list exactly as
      it was and raises the one danger banner; a valid form appends exactly
      one record, after all the old ones, untouched, and raises the success
      banner. It never updates a record in place. */
  function SaveTour(tours: seq<Tour>, f: FormInput, p: Parsers, roll: real): (out: Submission)
    requires 0.0 <= roll < 1.0
    ensures !Validate(f, p).isValid ==>
              && out.tours == tours
              && |out.alerts| == 1 && out.alerts[0].kind == Danger
    ensures Validate(f, p).isValid ==>
              && |out.tours| == |tours| + 1
              && out.tours[..|tours|] == tours
              && Created(out.tours[|tours|], |tours|, f, p)
              && out.alerts == [SavedAlert]
  {
    var v := Validate(f, p);
    if !v.isValid then Submission(tours, ValidationAlerts(v))
    else Submission(tours + [NewTour(|tours|, f, p, roll)], [SavedAlert])
  }

  /** Saving keeps identifiers numbered by position when they were. */
  lemma SaveKeepsSequentialIds(tours: seq<Tour>, f: FormInput, p: Parsers, roll: real)
    requires 0.0 <= roll < 1.0
    requires SequentialIds(tours)
    ensures SequentialIds(SaveTour(tours, f, p, roll).tours)
    ensures UniqueIds(SaveTour(tours, f, p, roll).tours)
  {
    var out := SaveTour(tours, f, p, roll).tours;
    if Validate(f, p).isValid {
      forall i | 0 <= i < |out| ensures out[i].id == i + 1 {
        if i < |tours| { assert out[i] == out[..|tours|][i]; }
      }
    }
    SequentialIdsAreUnique(out);
  }

  /** Saving keeps every record in its field ranges. */
  lemma SaveKeepsRanges(tours: seq<Tour>, f: FormInput, p: Parsers, roll: real)
    requires 0.0 <= roll < 1.0
    requires AllInRange(tours)
    ensures AllInRange(SaveTour(tours, f, p, roll).tours)
  {
    var out := SaveTour(tours, f, p, roll).tours;
    if Validate(f, p).isValid {
      forall i | 0 <= i < |out| ensures InRange(out[i]) {
        if i < |tours| { assert out[i] == out[..|tours|][i]; }
      }
    }
  }

  /** The identifier is the list length plus one, not a fresh counter: a
      list whose only record already has identifier 2 gets a second record
      with identifier 2. */
  lemma IdCanRepeat(t: Tour, f: FormInput, p: Parsers, roll: real)
    requires 0.0 <= roll < 1.0
    requires t.id == 2
    requires Validate(f, p).isValid
    ensures !UniqueIds(SaveTour([t], f, p, roll).tours)
  {
    var out := SaveTour([t], f, p, roll).tours;
    assert out[0] == out[..1][0];
    assert out[0].id == out[1].id;
  }

  /** A freshly saved tour shows as unrated ("New" when pending, "--"
      otherwise), with no bookings, and with its price placeholder exactly
      when the price is zero. */
  lemma SavedTourCard(tours: seq<Tour>, f: FormInput, p: Parsers, roll: real, fmt: Formatters)
    requires 0.0 <= roll < 1.0
    requires Validate(f, p).isValid
    ensures var c := CardOf(SaveTour(tours, f, p, roll).tours[|tours|], fmt);
            && c.ratingEmpty
            && (c.ratingText == "New" <==> f.status == Pending)
            && c.bookingsEmpty
            && (c.priceText == "--" <==> c.priceEmpty)
  {
  }

}
