/** Worked examples of the form and the card, stated for every parser and
    formatter that reads the example's numbers the usual way. */
module Scenarios {
  import opened Wrappers
  import opened Text
  import opened Tours
  import opened Validation
  import opened Saving
  import opened Rendering

  /** A complete, valid submission: a six-character title, a 25-character
      description, price 100, three hours, groups of ten. */
  const Sample: FormInput := FormInput(
    title := "Tour X",
    description := "A walk through the centre",
    price := "100",
    category := "History",
    duration := "3",
    maxGroup := "10",
    meetingPoint := "Main Plaza",
    included := "guide, lunch",
    status := Active
  )

  predicate ReadsSample(p: Parsers) {
    && p.parseFloat("100") == Some(100.0)
    && p.parseInt("3") == Some(3)
    && p.parseInt("10") == Some(10)
  }

  /** The sample's texts have no surrounding whitespace. */
  lemma SampleTextsTrimmed()
    ensures Trim(Sample.title) == "Tour X"
    ensures Trim(Sample.description) == "A walk through the centre"
    ensures Trim(Sample.category) == "History"
    ensures Trim(Sample.meetingPoint) == "Main Plaza"
    ensures Trim(Sample.included) == "guide, lunch"
  {
    TrimOfTrimmed("Tour X");
    TrimOfTrimmed("A walk through the centre");
    TrimOfTrimmed("History");
    TrimOfTrimmed("Main Plaza");
    TrimOfTrimmed("guide, lunch");
  }

  /** "guide, lunch" splits into "guide" and " lunch". */
  lemma SampleSplit(text: string)
    requires text == "guide, lunch"
    ensures Split(text, ',') == ["guide", " lunch"]
  {
    var parts := ["guide", " lunch"];
    assert Join(parts, ',') == "guide" + [','] + " lunch" == text;
    assert ',' !in parts[0] && ',' !in parts[1];
    SplitJoin(parts, ',');
  }

  /** "guide, lunch" is stored as the two items "guide" and "lunch". */
  lemma SampleItems(text: string)
    requires text == "guide, lunch"
    ensures IncludedItems(text) == ["guide", "lunch"]
  {
    SampleSplit(text);
    IncludedItemsArePieces(text);
    TrimOfTrimmed("guide");
    assert " lunch" == " " + "lunch" + "";
    TrimUnique(" ", "lunch", "");
  }

  /** The sample passes every rule. */
  lemma SampleAccepted(p: Parsers)
    requires ReadsSample(p)
    ensures Acceptable(Sample, p)
  {
    SampleTextsTrimmed();
  }

  /** The record built from the sample carries its values, the fixed
      currency, no bookings and no rating. */
  lemma SampleRecord(n: nat, p: Parsers, roll: real)
    requires ReadsSample(p)
    requires 0.0 <= roll < 1.0
    ensures Validate(Sample, p).isValid
    ensures NewTour(n, Sample, p, roll) == Tour(
              n + 1, "Tour X", "A walk through the centre", 100.0, "MXN",
              0, None, Active, RandomImageClass(roll), "History", 3, 10,
              ["guide", "lunch"], "Main Plaza")
  {
    SampleAccepted(p);
    ValidIffAcceptable(Sample, p);
    SampleTextsTrimmed();
    SampleItems(Sample.included);
  }

  /** The sample is accepted and appended with its values, the fixed
      currency, no bookings and no rating. */
  lemma SampleIsSaved(tours: seq<Tour>, p: Parsers, roll: real)
    requires ReadsSample(p)
    requires 0.0 <= roll < 1.0
    ensures Validate(Sample, p).isValid
    ensures SaveTour(tours, Sample, p, roll).tours == tours + [Tour(
              |tours| + 1, "Tour X", "A walk through the centre", 100.0, "MXN",
              0, None, Active, RandomImageClass(roll), "History", 3, 10,
              ["guide", "lunch"], "Main Plaza")]
  {
    SampleRecord(|tours|, p, roll);
  }

  /** The first two rules of a list in check order differ. */
  lemma FirstTwoDiffer(rules: seq<Rule>)
    ensures InCheckOrder(rules) && |rules| > 1 ==>
              rules[0] != rules[1] && rules[0] in rules && rules[1] in rules
  {
  }

  /** A list in check order that holds only `rule`, and holds it, is
      `[rule]`. */
  lemma OnlyFailure(failed: seq<Rule>, rule: Rule)
    requires InCheckOrder(failed)
    requires rule in failed
    requires forall x :: x in failed ==> x == rule
    ensures failed == [rule]
  {
    FirstTwoDiffer(failed);
  }

  /** Changing only the duration of an accepted form so that the duration
      rule fails makes that rule the only failure. */
  lemma OnlyDurationFails(f: FormInput, g: FormInput, p: Parsers)
    requires Validate(g, p).isValid
    requires f == g.(duration := f.duration)
    requires Fails(DurationRule, f, p)
    ensures Validate(f, p).failed == [DurationRule]
  {
    var failed := Validate(f, p).failed;
    forall rule | rule in failed ensures rule == DurationRule {
      if rule != DurationRule {
        RuleReadsOnlyItsField(rule, f, g, p);
      }
    }
    OnlyFailure(failed, DurationRule);
  }

  /** A duration of 15 hours fails the duration rule and nothing else, and
      the list is left as it was. */
  lemma LongDurationFailsAlone(tours: seq<Tour>, p: Parsers, roll: real)
    requires ReadsSample(p)
    requires p.parseInt("15") == Some(15)
    requires 0.0 <= roll < 1.0
    ensures Validate(Sample.(duration := "15"), p).failed == [DurationRule]
    ensures SaveTour(tours, Sample.(duration := "15"), p, roll).tours == tours
  {
    SampleAccepted(p);
    ValidIffAcceptable(Sample, p);
    OnlyDurationFails(Sample.(duration := "15"), Sample, p);
  }

  /** Only the trimmed length of the whole included-items text is checked:
      five commas pass that rule and store six empty items. */
  lemma IncludedItemsMayAllBeEmpty(f: FormInput, p: Parsers)
    requires f.included == ",,,,,"
    ensures !Fails(IncludedRule, f, p)
    ensures IncludedItems(f.included) == ["", "", "", "", "", ""]
  {
    assert Trim(",,,,,") == ",,,,,";
  }

  /** Lengths are counted in UTF-16 code units, as JavaScript does: three
      characters above U+FFFF make a meeting point of length 6, which the
      rule accepts, though it is only three characters long. */
  lemma AstralCharactersCountTwice(f: FormInput, p: Parsers)
    requires f.meetingPoint == "\U{1F5FF}\U{1F5FF}\U{1F5FF}"
    ensures |Trim(f.meetingPoint)| == 3
    ensures Utf16Length(Trim(f.meetingPoint)) == 6
    ensures !Fails(MeetingPointRule, f, p)
  {
    TrimOfTrimmed(f.meetingPoint);
    var m := f.meetingPoint;
    assert m[1..][1..][1..] == [];
  }

  /** The price and rating examples: 250 MXN shows as "$250 MXN", a zero
      price as "--"; an unrated pending tour shows "New", an unrated active
      one "--". */
  lemma CardExamples(t: Tour, fmt: Formatters)
    requires fmt.number(250.0) == "250"
    ensures PriceDisplay(t.(price := 250.0, currency := "MXN"), fmt) == "$250 MXN"
    ensures PriceDisplay(t.(price := 0.0), fmt) == "--"
    ensures RatingDisplay(t.(rating := None, status := Pending), fmt) == "New"
    ensures RatingDisplay(t.(rating := None, status := Active), fmt) == "--"
  {
  }

}
