# Tour listings: form validation, creation and card decisions

A model of the decision logic of the tour-management page of KinConecta
(`frontend/src/scripts/tours.js`). The page keeps an ordered list of tour
records. It validates a nine-field creation form with eight independent rules,
appends one record per successful submission, and renders each record as a
card whose labels, placeholders and action buttons depend on the record's
status, rating and price. The DOM, timers, storage and network calls are
stripped away, and what remains is modelled as pure functions over immutable
datatypes:

- `Wrappers`: `Option`, which stands for `null` and for a `NaN` parse.
- `Text`: JavaScript's `trim` and `split`/`join` on one separator character.
  `Trim` is characterised completely: its result is trimmed (`Trim`), it is
  the whitespace-framed middle of its input (`TrimIsSlice`), and it is the
  only such middle (`TrimUnique`). `Split` and `Join` are proved inverse in
  both directions.
- `Tours`: the `Tour` record, the three statuses, the fixed currency, the ten
  image labels, the alert banner, and the list invariants (field ranges,
  identifiers numbered by position, unique identifiers).
- `Validation`: `validateForm`. The rule table is `Fails`, and the eight
  checks run in source order (`RunChecks`).
- `Saving`: `saveTour`, `getRandomImageClass` and the included-items parsing.
- `Rendering`: the status label, rating text, price text, empty-state flags
  and action buttons of `createTourCard` and `getTourActionButtons`.
- `Scenarios`: worked examples. A complete valid submission is appended
  with its values. A 15-hour duration fails that rule alone. The price and
  rating placeholders are shown for sample values.

Abstractions:

- `parseFloat` and `parseInt` are the function fields of a `Parsers` value
  passed in. `None` is `NaN`.
- `${price}` and `toFixed(1)` are the function fields of a `Formatters` value.
- `Math.random()` is the parameter `roll`, with `0 <= roll < 1`.
- Prices and ratings are `real`s. Identifiers, durations, group sizes and
  booking counts are unbounded `int`s.

Four behaviours of the code worth knowing:

- Included items are not guaranteed to hold a non-empty entry. Only the
  trimmed length of the whole text is checked, so `",,,,,"` passes and is
  stored as six empty items (`Scenarios.IncludedItemsMayAllBeEmpty`).
- The price placeholder `"--"` is shown for every price that is not above
  zero, negative prices included. The "empty" price style, however, tests
  `price === 0` (`Rendering.NegativePriceNotMarkedEmpty`).
- The form's status field is never validated. There are eight rules for the
  nine fields.
- Length limits count UTF-16 code units, as JavaScript's `length` does, so a
  character above U+FFFF counts twice. Three such characters make a meeting
  point of length 6, and the rule accepts it
  (`Scenarios.AstralCharactersCountTwice`).

## Model

| member | source | states |
|---|---|---|
| `Text.Trim` | frontend/src/scripts/tours.js:162 | `trim()` leaves no whitespace at either end and never lengthens the text |
| `Text.TrimIsSlice` | frontend/src/scripts/tours.js:162 | what `trim()` removes is whitespace before and after the result, which is a contiguous middle part of the input |
| `Text.TrimUnique` | frontend/src/scripts/tours.js:162 | whitespace, then a trimmed part, then whitespace always trims to exactly that part, so `trim()` is fully determined |
| `Text.TrimIdempotent` | frontend/src/scripts/tours.js:299-311 | trimming an already trimmed field changes nothing |
| `Text.Utf16Length` | frontend/src/scripts/tours.js:163 | `length` counts one for a character up to U+FFFF and two for one above it. It is at least the number of characters and at most twice it, and equals it exactly when no character lies above U+FFFF |
| `Text.Utf16LengthAppend` | frontend/src/scripts/tours.js:163 | the `length` of a concatenation is the sum of the lengths, which with the single-character case fixes `length` on every string |
| `Text.Split` | frontend/src/scripts/tours.js:310 | `split(',')` yields one piece more than there are commas, and no piece holds a comma |
| `Text.JoinSplit` | frontend/src/scripts/tours.js:310 | joining the pieces of a split with the separator gives back the original text |
| `Text.SplitJoin` | frontend/src/scripts/tours.js:310 | splitting a join of comma-free pieces gives back the same pieces |
| `Tours.SequentialIdsAreUnique` | frontend/src/scripts/tours.js:298 | identifiers that number records by position are pairwise distinct |
| `Validation.EveryRuleChecked` | frontend/src/scripts/tours.js:161-223 | the eight checks cover every rule, in one fixed order |
| `Validation.RunChecks` | frontend/src/scripts/tours.js:158-223 | running the checks in turn clears the flag exactly when an error is pushed; the errors are exactly the failing rules, in check order |
| `Validation.Validate` | frontend/src/scripts/tours.js:156-230 | the returned flag is true exactly when the error list is empty; the list holds every rule that rejects the form, and only those, each once, in the order checked. Length rules count UTF-16 code units |
| `Validation.AcceptableIffNoRuleFails` | frontend/src/scripts/tours.js:161-223 | the spelled-out field conditions are exactly "no rule fails". Those conditions are: title ≥ 5, description ≥ 20, price a number ≥ 0, category non-empty, duration 1–12, group 1–50, meeting point ≥ 5 and included ≥ 5. Text lengths are in UTF-16 code units of the trimmed text |
| `Validation.ValidIffAcceptable` | frontend/src/scripts/tours.js:161-229 | validation succeeds if and only if all eight field conditions hold, with the length limits counted in UTF-16 code units as JavaScript's `length` counts them |
| `Validation.Errors` | frontend/src/scripts/tours.js:159-221 | the `errors` array holds one message per rule that rejects the form, and only those. It is as long as the set of failing rules, no message appears twice, and the messages come in check order |
| `Validation.MarkedFields` | frontend/src/scripts/tours.js:164-220 | the fields marked with an error are those of the rules that reject the form, and only those, with no field marked twice |
| `Validation.RuleReadsOnlyItsField` | frontend/src/scripts/tours.js:161-223 | the rules are independent: whether a rule is reported depends only on its own field |
| `Validation.ValidationAlerts` | frontend/src/scripts/tours.js:225-227 | a failed validation raises exactly one danger banner; a successful one raises none |
| `Saving.RandomImageClass` | frontend/src/scripts/tours.js:332-336 | the drawn image class is always one of the ten labels |
| `Saving.EveryLabelCanBeDrawn` | frontend/src/scripts/tours.js:333-335 | each of the ten labels is drawn for some random value |
| `Saving.NewTour` | frontend/src/scripts/tours.js:297-312 | the record built from a valid form has id = n + 1, no bookings, no rating and currency MXN. It has the form's status and the trimmed texts, with the length limits validation enforced. Price, duration and group size are the numbers the form parsed to, within the validated ranges. Its image label is one of the ten, and the included items are the trimmed comma pieces |
| `Saving.IncludedItems` | frontend/src/scripts/tours.js:310 | there is one stored item more than there are commas; no item holds a comma or has leading or trailing whitespace |
| `Saving.IncludedItemsArePieces` | frontend/src/scripts/tours.js:310 | each stored item is the trimmed comma-separated piece at the same position |
| `Saving.SaveTour` | frontend/src/scripts/tours.js:289-329 | an invalid form leaves the list as it was and raises a danger banner. A valid form makes the list one longer with every earlier record unchanged. The new last record has id = old length + 1, no bookings, no rating, currency MXN, the trimmed texts within the length limits, an image label from the list, the parsed price ≥ 0, duration 1–12 and group size 1–50. A success banner is raised |
| `Saving.SaveKeepsSequentialIds` | frontend/src/scripts/tours.js:298-318 | when identifiers number records by position, they still do after a save, so they remain unique |
| `Saving.SaveKeepsRanges` | frontend/src/scripts/tours.js:292-309 | if every record is within its field ranges before a save, every record is after it |
| `Saving.IdCanRepeat` | frontend/src/scripts/tours.js:298 | the new identifier is the length plus one, not a fresh counter, so a list whose record already has id 2 gets a duplicate id |
| `Saving.SavedTourCard` | frontend/src/scripts/tours.js:303-304 | a newly saved tour renders as unrated ("New" exactly when pending) with no bookings, and its price placeholder coincides with the empty style |
| `Rendering.StatusLabel` | frontend/src/scripts/tours.js:33-37 | active is shown as "Activo", draft as "Borrador" and pending as "Pendiente", and each label only for its own status |
| `Rendering.StatusLabelsDiffer` | frontend/src/scripts/tours.js:33-37 | distinct statuses are shown with distinct labels |
| `Rendering.RatingDisplay` | frontend/src/scripts/tours.js:39 | a truthy rating is shown formatted; an absent or zero rating is shown as "New" exactly when the tour is pending, and as "--" otherwise |
| `Rendering.PriceDisplay` | frontend/src/scripts/tours.js:40 | the price text is "--" exactly when the price is not above zero; otherwise it is "$", then the formatted amount, then a space and the currency |
| `Rendering.ActionButtons` | frontend/src/scripts/tours.js:83-109 | drafts get one control, captioned "Continuar Editando"; other statuses get "Editar" and then "En Revisión" (pending) or "Ver Reservas". The first control always edits this tour. A control is enabled exactly when it has a handler, and every handler targets this tour |
| `Rendering.ActionsByStatus` | frontend/src/scripts/tours.js:83-109 | draft gives exactly one action. Pending gives two, exactly one of them disabled. Only the remaining status gets "view bookings" |
| `Rendering.CardOf` | frontend/src/scripts/tours.js:29-80 | a card has the draft style exactly when the tour is a draft, which is also exactly when it has a single action. Its rating is styled empty exactly when the rating is falsy. Its bookings are styled empty exactly when there are none. Its price is styled empty exactly when the price is 0, and then shows "--". Its label, rating text, price text and actions are those of the status label, the rating display, the price display and the action row |
| `Rendering.NegativePriceNotMarkedEmpty` | frontend/src/scripts/tours.js:40-67 | a negative price shows the "--" placeholder without the empty style |
| `Scenarios.SampleAccepted` | frontend/src/scripts/tours.js:161-223 | the sample submission (title "Tour X", 25-character description, price 100, duration 3, group 10) passes every rule |
| `Scenarios.SampleItems` | frontend/src/scripts/tours.js:310 | "guide, lunch" is stored as the items "guide" and "lunch" |
| `Scenarios.SampleRecord` | frontend/src/scripts/tours.js:297-312 | the sample is accepted, and the record built from it carries exactly its values, currency MXN, no bookings and no rating |
| `Scenarios.SampleIsSaved` | frontend/src/scripts/tours.js:297-318 | the sample is appended as one record with exactly its values, currency MXN, no bookings and no rating |
| `Scenarios.OnlyDurationFails` | frontend/src/scripts/tours.js:161-223 | changing only the duration of an accepted form so that the duration rule fails makes that rule the only one reported |
| `Scenarios.LongDurationFailsAlone` | frontend/src/scripts/tours.js:193-199 | a 15-hour duration fails the duration rule and no other, and the list is left unchanged |
| `Scenarios.IncludedItemsMayAllBeEmpty` | frontend/src/scripts/tours.js:218-219 | ",,,,," passes the included-items rule and is stored as six empty items |
| `Scenarios.AstralCharactersCountTwice` | frontend/src/scripts/tours.js:210-211 | a meeting point of three characters above U+FFFF has JavaScript length 6 and passes the five-character rule |
| `Scenarios.CardExamples` | frontend/src/scripts/tours.js:39-40 | 250 MXN is shown as "$250 MXN" and a zero price as "--"; an unrated pending tour shows "New" and an unrated active one "--" |

## Left out

- `loadTours` (tours.js:6-15) is left out: it is a network fetch followed by JSON parsing.
- The localStorage write (tours.js:321) and the restore on page load (tours.js:380-385) are left out: they are browser storage and library serialisation. So is the persist/restore round trip.
- DOM construction and mutation are left out: `renderTours`, the card markup, `showFieldError`, `clearErrors`, `openTourModal`, `closeTourModal` and `populateForm`. Only the decisions `createTourCard` makes are modelled, in `Rendering.CardOf`.
- `showAlert`/`closeAlert` and their 10 ms, 300 ms and 5 s timers are left out. Only which banner is raised (message and kind) is modelled.
- The event-listener wiring (tours.js:348-386) and `viewBookings` (a stub banner) are left out.
- The edit path (`editTour` opening the pre-filled form) is left out. `Saving.SaveTour` shows that saving always appends and never updates in place.
- The `console.log` of the new record (tours.js:315) is left out.
- Status strings outside active/draft/pending are not modelled. The form's select and the stored records carry one of the three, so the source's catch-all `else` branch in `getTourActionButtons` is reached only by active tours.
- A rating of `NaN` (also falsy in JavaScript) is not modelled. Neither are `parseFloat` results of `Infinity`.
- Validation.Validate: the exact lenient parsing of `parseFloat`/`parseInt` (leading digits, `"3.7"` read as 3) is abstract. The rules are stated over whatever number the parser returns.
- Saving.RandomImageClass: only the range of the draw is stated (with every label reachable, in `Saving.EveryLabelCanBeDrawn`). That the draw is uniform is not modelled.
- Rendering.RatingDisplay: `toFixed(1)` rounding is abstract (the `fixed1` formatter).
- Text.Trim: the whitespace set is ECMAScript's WhiteSpace and LineTerminator characters as listed in `Text.IsSpace`. No Unicode normalisation is done. Strings are sequences of Unicode scalar values, so lone surrogates, which a JavaScript string may hold, are not modelled. Lengths are nevertheless counted in UTF-16 code units (`Text.Utf16Length`).
