/** The decisions `createTourCard` and `getTourActionButtons` make for one
    tour, as a view model: which labels, placeholders and controls a card
    shows. The markup around them is not modelled. */
module Rendering {
  import opened Wrappers
  import opened Tours

  /** How numbers become text: `${price}` interpolation and
      `rating.toFixed(1)`, both left abstract. */
  datatype Formatters = Formatters(number: real -> string, fixed1: real -> string)

  /** The status badge text: each status has its own Spanish label. */
  function StatusLabel(s: Status): (text: string)
    ensures text in ["Activo", "Borrador", "Pendiente"]
    ensures text == "Activo" <==> s == Active
    ensures text == "Borrador" <==> s == Draft
    ensures text == "Pendiente" <==> s == Pending
  {
    match s
    case Active => "Activo"
    case Draft => "Borrador"
    case Pending => "Pendiente"
  }

  /** Different statuses get different badges. */
  lemma StatusLabelsDiffer(s: Status, t: Status)
    requires s != t
    ensures StatusLabel(s) != StatusLabel(t)
  {
    assert StatusLabel(s)[0] != StatusLabel(t)[0];
  }

  /** JavaScript truthiness of `tour.rating`: present and not zero. */
  predicate HasRating(t: Tour) {
    t.rating.Some? && t.rating.value != 0.0
  }

  /** The rating text: the rating to one decimal when there is a truthy
      one; otherwise "New" for a pending tour and "--" for any other. */
  function RatingDisplay(t: Tour, fmt: Formatters): (text: string)
    ensures HasRating(t) ==> text == fmt.fixed1(t.rating.value)
    ensures !HasRating(t) ==> (text == "New" <==> t.status == Pending)
    ensures !HasRating(t) ==> (text == "--" <==> t.status != Pending)
  {
    if HasRating(t) then fmt.fixed1(t.rating.value)
    else if t.status == Pending then "New"
    else "--"
  }

  /** The price text: "$", the amount, a space and the currency when the
      price is above zero; "--" otherwise, zero included. */
  function PriceDisplay(t: Tour, fmt: Formatters): (text: string)
    ensures text == "--" <==> t.price <= 0.0
    ensures t.price > 0.0 ==>
              && |text| >= 2 + |t.currency|
              && text[0] == '$'
              && text[|text| - |t.currency| - 1..] == " " + t.currency
              && text[1..|text| - |t.currency| - 1] == fmt.number(t.price)
  {
    if t.price > 0.0 then
      var text := "$" + fmt.number(t.price) + " " + t.currency;
      assert text[0] == '$';
      text
    else "--"
  }

  /** What a control does when clicked. */
  datatype Handler = EditTour(tourId: int) | ViewBookings(tourId: int)

  /** One button of the action row: its caption, its click handler if it
      has one, and whether it is enabled. */
  datatype Control = Control(caption: string, handler: Option<Handler>, enabled: bool)

  /** `getTourActionButtons`: the action row chosen by status. */
  function ActionButtons(t: Tour): (controls: seq<Control>)
    ensures |controls| == (if t.status == Draft then 1 else 2)
    ensures controls[0].enabled && controls[0].handler == Some(EditTour(t.id))
    ensures controls[0].caption == (if t.status == Draft then "Continuar Editando" else "Editar")
    ensures |controls| == 2 ==>
              controls[1].caption == (if t.status == Pending then "En Revisión" else "Ver Reservas")
    ensures forall i :: 0 <= i < |controls| ==>
              (controls[i].enabled <==> controls[i].handler.Some?)
    ensures forall i :: 0 <= i < |controls| && controls[i].handler.Some? ==>
              controls[i].handler.value.tourId == t.id
  {
    match t.status
    case Draft =>
      [Control("Continuar Editando", Some(EditTour(t.id)), true)]
    case Pending =>
      [Control("Editar", Some(EditTour(t.id)), true),
       Control("En Revisión", None, false)]
    case Active =>
      [Control("Editar", Some(EditTour(t.id)), true),
       Control("Ver Reservas", Some(ViewBookings(t.id)), true)]
  }

  /** How many controls of a row are disabled. */
  function DisabledCount(controls: seq<Control>): nat
    decreases |controls|
  {
    if |controls| == 0 then 0
    else (if controls[0].enabled then 0 else 1) + DisabledCount(controls[1..])
  }

  /** A draft shows one control; a pending tour shows two, exactly one of
      them disabled (the "in review" marker); any other tour shows two
      enabled ones, the second opening its bookings. */
  lemma ActionsByStatus(t: Tour)
    ensures t.status == Draft <==> |ActionButtons(t)| == 1
    ensures DisabledCount(ActionButtons(t)) == (if t.status == Pending then 1 else 0)
    ensures t.status == Active <==>
              |ActionButtons(t)| == 2 && ActionButtons(t)[1].handler == Some(ViewBookings(t.id))
  {
    var c := ActionButtons(t);
    if |c| == 2 {
      assert c[1..][1..] == [];
      assert DisabledCount(c[1..]) == (if c[1].enabled then 0 else 1);
    } else {
      assert c[1..] == [];
    }
  }

  /** The decisions of one card. */
  datatype Card = Card(
    draftStyle: bool,
    statusLabel: string,
    ratingText: string,
    ratingEmpty: bool,
    bookingsEmpty: bool,
    priceText: string,
    priceEmpty: bool,
    actions: seq<Control>
  )

  /** `createTourCard` without its markup. */
  function CardOf(t: Tour, fmt: Formatters): (c: Card)
    ensures c.draftStyle <==> t.status == Draft
    ensures c.ratingEmpty <==> !HasRating(t)
    ensures c.priceEmpty <==> t.price == 0.0
    ensures c.priceEmpty ==> c.priceText == "--"
    ensures c.bookingsEmpty <==> t.bookings == 0
    ensures |c.actions| == 1 <==> c.draftStyle
    ensures c.statusLabel == StatusLabel(t.status)
    ensures c.ratingText == RatingDisplay(t, fmt)
    ensures c.priceText == PriceDisplay(t, fmt)
    ensures c.actions == ActionButtons(t)
  {
    Card(
      draftStyle := t.status == Draft,
      statusLabel := StatusLabel(t.status),
      ratingText := RatingDisplay(t, fmt),
      ratingEmpty := !HasRating(t),
      bookingsEmpty := t.bookings == 0,
      priceText := PriceDisplay(t, fmt),
      priceEmpty := t.price == 0.0,
      actions := ActionButtons(t)
    )
  }

  /** The price placeholder and the "empty" price style disagree on
      negative prices: such a price shows "--" without the empty style. */
  lemma NegativePriceNotMarkedEmpty(t: Tour, fmt: Formatters)
    requires t.price < 0.0
    ensures CardOf(t, fmt).priceText == "--" && !CardOf(t, fmt).priceEmpty
  {
  }

}
