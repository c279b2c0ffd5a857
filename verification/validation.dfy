/** `validateForm`: eight independent rules over the form's fields, each
    rule that fails adding one entry to the error list. */
module Validation {
  import opened Wrappers
  import opened Text
  import opened Tours

  /** The raw text of the form's fields; the status comes from a select
      that offers the three statuses. */
  datatype FormInput = FormInput(
    title: string,
    description: string,
    price: string,
    category: string,
    duration: string,
    maxGroup: string,
    meetingPoint: string,
    included: string,
    status: Status
  )

  /** JavaScript's `parseFloat` and `parseInt`, left abstract: `None` is
      the `NaN` they return for text that does not start with a number. */
  datatype Parsers = Parsers(parseFloat: string -> Option<real>, parseInt: string -> Option<int>)

  datatype Rule =
    | TitleRule | DescriptionRule | PriceRule | CategoryRule
    | DurationRule | MaxGroupRule | MeetingPointRule | IncludedRule

  /** The rules in the order `validateForm` checks them. */
  const Rules: seq<Rule> := [
    TitleRule, DescriptionRule, PriceRule, CategoryRule,
    DurationRule, MaxGroupRule, MeetingPointRule, IncludedRule
  ]

  /** A rule's place in `Rules`. */
  function Rank(rule: Rule): nat {
    match rule
    case TitleRule => 0
    case DescriptionRule => 1
    case PriceRule => 2
    case CategoryRule => 3
    case DurationRule => 4
    case MaxGroupRule => 5
    case MeetingPointRule => 6
    case IncludedRule => 7
  }

  /** `Rules` lists every rule, each at its rank. */
  lemma EveryRuleChecked()
    ensures forall rule :: rule in Rules
    ensures InCheckOrder(Rules)
  {
    forall rule ensures rule in Rules {
      assert Rules[Rank(rule)] == rule;
    }
  }

  /** The form field a failing rule marks as invalid. */
  function FieldId(rule: Rule): string {
    match rule
    case TitleRule => "tourTitle"
    case DescriptionRule => "tourDescription"
    case PriceRule => "tourPrice"
    case CategoryRule => "tourCategory"
    case DurationRule => "tourDuration"
    case MaxGroupRule => "tourMaxGroup"
    case MeetingPointRule => "tourMeetingPoint"
    case IncludedRule => "tourIncluded"
  }

  /** The entry a failing rule pushes onto the error list. */
  function Summary(rule: Rule): string {
    match rule
    case TitleRule => "Título inválido"
    case DescriptionRule => "Descripción muy corta"
    case PriceRule => "Precio inválido"
    case CategoryRule => "Categoría requerida"
    case DurationRule => "Duración inválida"
    case MaxGroupRule => "Tamaño de grupo inválido"
    case MeetingPointRule => "Punto de encuentro inválido"
    case IncludedRule => "Items incluidos requeridos"
  }

  /** JavaScript's `text.trim().length < min`. */
  predicate TooShort(text: string, min: nat) {
    Utf16Length(Trim(text)) < min
  }

  /** The rule table: when each rule rejects the form. Lengths are
      JavaScript's, in UTF-16 code units. */
  predicate Fails(rule: Rule, f: FormInput, p: Parsers) {
    match rule
    case TitleRule => TooShort(f.title, 5)
    case DescriptionRule => TooShort(f.description, 20)
    case PriceRule =>
      var x := p.parseFloat(f.price);
      x.None? || x.value < 0.0
    case CategoryRule => Trim(f.category) == ""
    case DurationRule =>
      var d := p.parseInt(f.duration);
      d.None? || d.value < 1 || d.value > 12
    case MaxGroupRule =>
      var g := p.parseInt(f.maxGroup);
      g.None? || g.value < 1 || g.value > 50
    case MeetingPointRule => TooShort(f.meetingPoint, 5)
    case IncludedRule => TooShort(f.included, 5)
  }

  /** Every rule holds, spelled out field by field. */
  predicate Acceptable(f: FormInput, p: Parsers) {
    && !TooShort(f.title, 5)
    && !TooShort(f.description, 20)
    && p.parseFloat(f.price).Some? && p.parseFloat(f.price).value >= 0.0
    && Trim(f.category) != ""
    && p.parseInt(f.duration).Some? && 1 <= p.parseInt(f.duration).value <= 12
    && p.parseInt(f.maxGroup).Some? && 1 <= p.parseInt(f.maxGroup).value <= 50
    && !TooShort(f.meetingPoint, 5)
    && !TooShort(f.included, 5)
  }

  /** The outcome of a validation pass: the `isValid` flag and the failed
      rules in the order they were found. */
  datatype Verdict = Verdict(isValid: bool, failed: seq<Rule>)

  /** Rules listed in strictly increasing check order (so each at most once). */
  predicate InCheckOrder(rules: seq<Rule>) {
    forall i, j :: 0 <= i < j < |rules| ==> Rank(rules[i]) < Rank(rules[j])
  }

  /** One `if` of `validateForm`: a failing rule clears the flag and adds
      its entry to the error list. */
  function Check(v: Verdict, rule: Rule, f: FormInput, p: Parsers): Verdict {
    if Fails(rule, f, p) then Verdict(false, v.failed + [rule]) else v
  }

  /** The checks of `rules`, applied one after another from a clean slate.
      The flag ends up set exactly when no entry was added, the list holds
      exactly the listed rules that reject the form, and a list given in
      check order yields errors in check order. */
  function RunChecks(rules: seq<Rule>, f: FormInput, p: Parsers): (v: Verdict)
    ensures v.isValid <==> v.failed == []
    ensures forall rule :: rule in v.failed <==> rule in rules && Fails(rule, f, p)
    ensures InCheckOrder(rules) ==> InCheckOrder(v.failed)
    decreases |rules|
  {
    if |rules| == 0 then Verdict(true, [])
    else
      var earlier := rules[..|rules| - 1];
      var rule := rules[|rules| - 1];
      assert rules == earlier + [rule];
      assert InCheckOrder(rules) ==> forall x :: x in earlier ==> Rank(x) < Rank(rule);
      Check(RunChecks(earlier, f, p), rule, f, p)
  }

  /** `validateForm`: the eight rules checked in source order. The flag is
      set exactly when the error list is empty; the list holds precisely
      the rules of the rule table that reject the form, each once, in check
      order. */
  function Validate(f: FormInput, p: Parsers): (v: Verdict)
    ensures v.isValid <==> v.failed == []
    ensures forall rule :: rule in v.failed <==> Fails(rule, f, p)
    ensures InCheckOrder(v.failed)
  {
    EveryRuleChecked();
    RunChecks(Rules, f, p)
  }

  /** The banner `validateForm` raises: one danger alert on failure, none
      on success. */
  function ValidationAlerts(v: Verdict): (alerts: seq<Alert>)
    ensures v.isValid <==> alerts == []
    ensures !v.isValid ==> |alerts| == 1 && alerts[0].kind == Danger
  {
    if v.isValid then [] else [Alert("Por favor corrija los errores en el formulario", Danger)]
  }

  /** The set of rules that reject the form. */
  function FailingRules(f: FormInput, p: Parsers): set<Rule> {
    set rule | rule in Rules && Fails(rule, f, p)
  }

  /** When every field condition holds, no rule rejects the form. */
  lemma AcceptableMeansNoRuleFails(f: FormInput, p: Parsers)
    ensures Acceptable(f, p) ==> forall rule :: !Fails(rule, f, p)
  {
    if Acceptable(f, p) {
      forall rule ensures !Fails(rule, f, p) {
        match rule
        case TitleRule =>
        case DescriptionRule =>
        case PriceRule =>
        case CategoryRule =>
        case DurationRule =>
        case MaxGroupRule =>
        case MeetingPointRule =>
        case IncludedRule =>
      }
    }
  }

  /** When no rule rejects the form, every field condition holds. */
  lemma NoRuleFailsMeansAcceptable(f: FormInput, p: Parsers)
    ensures (forall rule :: !Fails(rule, f, p)) ==> Acceptable(f, p)
  {
    if forall rule :: !Fails(rule, f, p) {
      assert !Fails(TitleRule, f, p) && !Fails(DescriptionRule, f, p);
      assert !Fails(PriceRule, f, p) && !Fails(CategoryRule, f, p);
      assert !Fails(DurationRule, f, p) && !Fails(MaxGroupRule, f, p);
      assert !Fails(MeetingPointRule, f, p) && !Fails(IncludedRule, f, p);
    }
  }

  /** The spelled-out field conditions say that no rule of the table
      rejects the form. */
  lemma AcceptableIffNoRuleFails(f: FormInput, p: Parsers)
    ensures Acceptable(f, p) <==> forall rule :: !Fails(rule, f, p)
  {
    AcceptableMeansNoRuleFails(f, p);
    NoRuleFailsMeansAcceptable(f, p);
  }

  /** The form is accepted exactly when every field rule holds. */
  lemma ValidIffAcceptable(f: FormInput, p: Parsers)
    ensures Validate(f, p).isValid <==> Acceptable(f, p)
  {
    AcceptableIffNoRuleFails(f, p);
    var v := Validate(f, p);
    if !v.isValid {
      assert v.failed[0] in v.failed;
    }
  }

  /** A list in check order holds as many rules as distinct elements. */
  lemma {:induction false} OrderedCount(rules: seq<Rule>)
    requires InCheckOrder(rules)
    ensures |set rule | rule in rules| == |rules|
  {
    if |rules| > 0 {
      var rest := rules[1..];
      assert InCheckOrder(rest);
      OrderedCount(rest);
      assert rules[0] !in rest by {
        assert forall j :: 0 <= j < |rest| ==> Rank(rules[0]) < Rank(rest[j]) by {
          forall j | 0 <= j < |rest| ensures Rank(rules[0]) < Rank(rest[j]) {
            assert rest[j] == rules[j + 1];
          }
        }
      }
      assert (set rule | rule in rules) == {rules[0]} + (set rule | rule in rest) by {
        assert rules == [rules[0]] + rest;
      }
    }
  }

  /** Each rule's entry differs from every other's in its first letters. */
  lemma SummaryTells(rule: Rule)
    ensures Summary(rule)[..3] == match rule
      case TitleRule => "Tít"
      case DescriptionRule => "Des"
      case PriceRule => "Pre"
      case CategoryRule => "Cat"
      case DurationRule => "Dur"
      case MaxGroupRule => "Tam"
      case MeetingPointRule => "Pun"
      case IncludedRule => "Ite"
  {
  }

  /** Distinct rules push distinct entries. */
  lemma SummaryInjective(r1: Rule, r2: Rule)
    requires r1 != r2
    ensures Summary(r1) != Summary(r2)
  {
    SummaryTells(r1);
    SummaryTells(r2);
  }

  /** Each field identifier differs from every other's after the "tour"
      prefix. */
  lemma FieldIdTells(rule: Rule)
    ensures FieldId(rule)[..6] == match rule
      case TitleRule => "tourTi"
      case DescriptionRule => "tourDe"
      case PriceRule => "tourPr"
      case CategoryRule => "tourCa"
      case DurationRule => "tourDu"
      case MaxGroupRule => "tourMa"
      case MeetingPointRule => "tourMe"
      case IncludedRule => "tourIn"
  {
  }

  /** Distinct rules mark distinct fields. */
  lemma FieldIdInjective(r1: Rule, r2: Rule)
    requires r1 != r2
    ensures FieldId(r1) != FieldId(r2)
  {
    FieldIdTells(r1);
    FieldIdTells(r2);
  }

  /** The failing rules of a pass are as many as the rules that reject the
      form. */
  lemma FailedCount(f: FormInput, p: Parsers)
    ensures |Validate(f, p).failed| == |FailingRules(f, p)|
  {
    var v := Validate(f, p);
    OrderedCount(v.failed);
    EveryRuleChecked();
    assert (set rule | rule in v.failed) == FailingRules(f, p);
  }

  /** The `errors` array `validateForm` gathers: one entry for each rule
      that rejects the form and for no other, no entry twice, in check
      order. */
  function Errors(f: FormInput, p: Parsers): (errs: seq<string>)
    ensures |errs| == |FailingRules(f, p)|
    ensures forall rule :: Summary(rule) in errs <==> Fails(rule, f, p)
    ensures forall i, j :: 0 <= i < j < |errs| ==> errs[i] != errs[j]
    ensures |errs| == |Validate(f, p).failed|
    ensures forall i :: 0 <= i < |errs| ==> errs[i] == Summary(Validate(f, p).failed[i])
  {
    var failed := Validate(f, p).failed;
    FailedCount(f, p);
    var errs := seq(|failed|, i requires 0 <= i < |failed| => Summary(failed[i]));
    forall i, j | 0 <= i < j < |errs| ensures errs[i] != errs[j] {
      assert Rank(failed[i]) < Rank(failed[j]);
      SummaryInjective(failed[i], failed[j]);
    }
    forall rule ensures Summary(rule) in errs <==> Fails(rule, f, p) {
      if Summary(rule) in errs {
        var i :| 0 <= i < |errs| && errs[i] == Summary(rule);
        if failed[i] != rule { SummaryInjective(failed[i], rule); }
      }
      if Fails(rule, f, p) {
        var i :| 0 <= i < |failed| && failed[i] == rule;
        assert errs[i] == Summary(rule);
      }
    }
    errs
  }

  /** The fields `showFieldError` marks as invalid: the field of each rule
      that rejects the form and no other, no field twice. */
  function MarkedFields(f: FormInput, p: Parsers): (ids: seq<string>)
    ensures |ids| == |FailingRules(f, p)|
    ensures forall rule :: FieldId(rule) in ids <==> Fails(rule, f, p)
    ensures forall i, j :: 0 <= i < j < |ids| ==> ids[i] != ids[j]
  {
    var failed := Validate(f, p).failed;
    FailedCount(f, p);
    var ids := seq(|failed|, i requires 0 <= i < |failed| => FieldId(failed[i]));
    forall i, j | 0 <= i < j < |ids| ensures ids[i] != ids[j] {
      assert Rank(failed[i]) < Rank(failed[j]);
      FieldIdInjective(failed[i], failed[j]);
    }
    forall rule ensures FieldId(rule) in ids <==> Fails(rule, f, p) {
      if FieldId(rule) in ids {
        var i :| 0 <= i < |ids| && ids[i] == FieldId(rule);
        if failed[i] != rule { FieldIdInjective(failed[i], rule); }
      }
      if Fails(rule, f, p) {
        var i :| 0 <= i < |failed| && failed[i] == rule;
        assert ids[i] == FieldId(rule);
      }
    }
    ids
  }

  /** The text of the field a rule reads. */
  function FieldText(rule: Rule, f: FormInput): string {
    match rule
    case TitleRule => f.title
    case DescriptionRule => f.description
    case PriceRule => f.price
    case CategoryRule => f.category
    case DurationRule => f.duration
    case MaxGroupRule => f.maxGroup
    case MeetingPointRule => f.meetingPoint
    case IncludedRule => f.included
  }

  /** The rules are independent: whether a rule is reported depends on its
      own field alone, whatever the other fields hold. */
  lemma RuleReadsOnlyItsField(rule: Rule, f: FormInput, g: FormInput, p: Parsers)
    requires FieldText(rule, f) == FieldText(rule, g)
    ensures rule in Validate(f, p).failed <==> rule in Validate(g, p).failed
  {
  }

}
