/**
 * The form check on a promo code against the database it is written to: which
 * submissions pass, which rows the schema takes, and exactly where the two
 * part (backend/internal/domain/promo.go, currency.go and
 * backend/migrations/000018_promotions.up.sql).
 */
module PromoRules {
  import opened Wrappers
  import opened Money
  import opened Pricing

  /**
   * The admin's form; the code is already trimmed and upper-cased, in UTF-8 bytes; instants are in
   * nanoseconds; currencies are as typed.
   */
  datatype PromoInput = PromoInput(
    code: seq<Byte>,
    kind: string,
    percent: Option<int>,
    startsAt: Option<int>,
    endsAt: Option<int>,
    maxRedemptions: Option<int>,
    active: bool,
    values: map<string, PromoValue>)

  datatype Field =
    | CodeField | KindField | PercentField | EndsAtField | CapField | ValuesField
    | CurrencyField(key: string) | AmountField(key: string) | MinSubtotalField(key: string)

  datatype Verdict = Required | TooLong | InvalidStatus | Positive

  const KINDS: map<string, PromoKind> := map["percent" := Percent, "fixed" := Fixed, "free_shipping" := FreeShipping]
  const CODE_LENGTH := 40
  const HONEY10: seq<Byte> := [0x48, 0x4f, 0x4e, 0x45, 0x59, 0x31, 0x30]
  const INT_MAX := 0x7fff_ffff

  // ----- Currency codes -----------------------------------------------------------

  function CodeOf(c: Currency): string {
    match c case USD => "USD" case AMD => "AMD"
  }

  function UpperChar(c: char): char {
    if 'a' <= c <= 'z' then c - 'a' + 'A' else c
  }

  function Upper(s: string): (r: string)
    ensures |r| == |s|
  {
    if s == "" then "" else Upper(s[..|s| - 1]) + [UpperChar(s[|s| - 1])]
  }

  /** ASCII upper-casing byte by byte, in a copy of the string. */
  method UpperASCII(s: string) returns (r: string)
    ensures r == Upper(s)
    ensures |r| == |s|
    ensures forall i | 0 <= i < |s| && !(97 <= s[i] as int <= 122) :: r[i] == s[i]
    ensures forall i | 0 <= i < |s| && 97 <= s[i] as int <= 122 :: r[i] as int == s[i] as int - 32
  {
    UpperIsLetterwise(s);
    var b := new char[|s|](i requires 0 <= i < |s| => s[i]);
    for i := 0 to |s|
      invariant b[..i] == Upper(s[..i])
      invariant forall k | i <= k < |s| :: b[k] == s[k]
    {
      assert s[..i + 1][..i] == s[..i];
      if 'a' <= b[i] <= 'z' {
        b[i] := b[i] - 'a' + 'A';
      }
      assert b[..i + 1] == b[..i] + [b[i]];
    }
    assert s[..|s|] == s && b[..] == b[..|s|];
    r := b[..];
  }

  /** Any casing names a currency; anything else names none. */
  function ParseCurrency(s: string): Option<Currency> {
    if Upper(s) == CodeOf(USD) then Some(USD)
    else if Upper(s) == CodeOf(AMD) then Some(AMD)
    else None
  }

  /** The exact spellings, which is what the currencies table holds. */
  predicate Canonical(key: string) {
    key == CodeOf(USD) || key == CodeOf(AMD)
  }

  lemma {:induction false} UpperAt(s: string, i: nat)
    requires i < |s|
    ensures Upper(s)[i] == UpperChar(s[i])
  {
    if i < |s| - 1 {
      UpperAt(s[..|s| - 1], i);
    }
  }

  lemma UpperIsLetterwise(s: string)
    ensures forall i | 0 <= i < |s| :: Upper(s)[i] == UpperChar(s[i])
  {
    forall i | 0 <= i < |s|
      ensures Upper(s)[i] == UpperChar(s[i])
    {
      UpperAt(s, i);
    }
  }

  /** The capital itself or its small letter, thirty-two places on. */
  predicate SameLetter(c: char, capital: char) {
    c as int == capital as int || c as int == capital as int + 32
  }

  /** A key names a currency exactly when it spells its code in some mixture of cases. */
  lemma ParsesIff(key: string, c: Currency)
    ensures ParseCurrency(key) == Some(c) <==> |key| == 3 && forall i | 0 <= i < 3 :: SameLetter(key[i], CodeOf(c)[i])
  {
    if |key| == 3 {
      forall i | 0 <= i < 3
        ensures Upper(key)[i] == UpperChar(key[i])
      {
        UpperAt(key, i);
      }
      assert CodeOf(USD)[0] == 'U' && CodeOf(AMD)[0] == 'A';
      if forall i | 0 <= i < 3 :: SameLetter(key[i], CodeOf(c)[i]) {
        assert Upper(key) == CodeOf(c);
      }
    }
  }

  // ----- The form check ---------------------------------------------------------------

  predicate HasAmount(form: PromoInput) {
    exists key | key in form.values :: form.values[key].amount.Some?
  }

  predicate Below(x: Option<int>, floor: int) {
    x.Some? && x.value < floor
  }

  /** What is wrong with a field, if anything: the later complaint about an amount replaces the earlier. */
  function Complaint(form: PromoInput, f: Field): Option<Verdict> {
    match f
    case CodeField =>
      if form.code == [] then Some(Required) else if |form.code| > CODE_LENGTH then Some(TooLong) else None
    case KindField =>
      if form.kind !in KINDS then Some(InvalidStatus) else None
    case PercentField =>
      if form.kind == "percent"
      then
        if form.percent.None? then Some(Required)
        else if form.percent.value < 1 || form.percent.value > 100 then Some(Positive)
        else None
      else if form.percent.Some? then Some(InvalidStatus) else None
    case EndsAtField =>
      if form.startsAt.Some? && form.endsAt.Some? && form.startsAt.value >= form.endsAt.value
      then Some(InvalidStatus) else None
    case CapField =>
      if Below(form.maxRedemptions, 1) then Some(Positive) else None
    case CurrencyField(key) =>
      if key in form.values && ParseCurrency(key).None? then Some(InvalidStatus) else None
    case AmountField(key) =>
      if key !in form.values || ParseCurrency(key).None? then None
      else if Below(form.values[key].amount, 1) then Some(Positive)
      else if form.values[key].amount.Some? && form.kind != "fixed" then Some(InvalidStatus)
      else None
    case MinSubtotalField(key) =>
      if key in form.values && ParseCurrency(key).Some? && Below(form.values[key].minSubtotal, 1)
      then Some(Positive) else None
    case ValuesField =>
      if form.kind == "fixed" && !HasAmount(form) then Some(Required) else None
  }

  /** The form was left without something it needs. */
  predicate Missing(form: PromoInput, f: Field) {
    || (f == CodeField && |form.code| == 0)
    || (f == PercentField && form.kind == "percent" && form.percent == None)
    || (f == ValuesField && form.kind == "fixed" && forall key | key in form.values :: form.values[key].amount == None)
  }

  predicate OutOf(x: Option<int>, least: int, most: int) {
    x.Some? && (x.value < least || most < x.value)
  }

  predicate NotPositive(x: Option<int>) {
    x.Some? && x.value <= 0
  }

  predicate NamesCurrency(key: string) {
    ParseCurrency(key) == Some(USD) || ParseCurrency(key) == Some(AMD)
  }

  /** A number is outside the range its field allows. */
  predicate OutOfRange(form: PromoInput, f: Field) {
    || (f == PercentField && form.kind == "percent" && OutOf(form.percent, 1, 100))
    || (f == CapField && NotPositive(form.maxRedemptions))
    || (f.AmountField? && f.key in form.values && NamesCurrency(f.key) && NotPositive(form.values[f.key].amount))
    || (f.MinSubtotalField? && f.key in form.values && NamesCurrency(f.key) && NotPositive(form.values[f.key].minSubtotal))
  }

  /** A field makes no sense, by itself or beside the others. */
  predicate Senseless(form: PromoInput, f: Field) {
    || (f == KindField && form.kind != "percent" && form.kind != "fixed" && form.kind != "free_shipping")
    || (f == PercentField && form.kind != "percent" && form.percent != None)
    || (f == EndsAtField && form.startsAt.Some? && form.endsAt.Some? && form.endsAt.value <= form.startsAt.value)
    || (f.CurrencyField? && f.key in form.values && !NamesCurrency(f.key))
    || (f.AmountField? && f.key in form.values && NamesCurrency(f.key) && form.kind != "fixed"
        && form.values[f.key].amount.Some? && form.values[f.key].amount.value > 0)
  }

  /** What each verdict says of the field it is under. */
  lemma VerdictsMean(form: PromoInput, f: Field)
    ensures Complaint(form, f) == Some(Required) <==> Missing(form, f)
    ensures Complaint(form, f) == Some(TooLong) <==> f == CodeField && |form.code| > 40
    ensures Complaint(form, f) == Some(Positive) <==> OutOfRange(form, f)
    ensures Complaint(form, f) == Some(InvalidStatus) <==> Senseless(form, f)
  {
    assert KINDS.Keys == {"percent", "fixed", "free_shipping"};
  }

  predicate PerKey(f: Field) {
    f.CurrencyField? || f.AmountField? || f.MinSubtotalField?
  }

  /** The map holds exactly the complaints about the fields that are done. */
  ghost predicate Reports(form: PromoInput, fields: map<Field, Verdict>, done: iset<Field>) {
    forall f :: (if f in fields then Some(fields[f]) else None)
             == (if f in done then Complaint(form, f) else None)
  }

  /** The fields the loop over the values has filled once the keys in todo are left. */
  ghost function DoneWith(todo: set<string>): iset<Field> {
    iset f: Field | f != ValuesField && (PerKey(f) ==> f.key !in todo)
  }

  /** Every complaint the rules make, under its own field, and no other. */
  method ValidatePromoInput(form: PromoInput) returns (fields: map<Field, Verdict>)
    ensures forall f :: f in fields <==> Complaint(form, f).Some?
    ensures forall f | f in fields :: Complaint(form, f) == Some(fields[f])
    ensures fields == map[] <==> Passes(form)
  {
    var rules := ValidateRules(form);
    RulesReport(form, rules);
    fields := ValidateValues(form, rules);
    if form.kind == "fixed" {
      var any := AnyAmount(form.values);
      if !any && KindField !in fields {
        fields := fields[ValuesField := Required];
      }
    }
  }

  /** Every market's money, on top of what the rules have filled in. */
  method ValidateValues(form: PromoInput, rules: map<Field, Verdict>) returns (fields: map<Field, Verdict>)
    requires Reports(form, rules, DoneWith(form.values.Keys))
    ensures Reports(form, fields, DoneWith({}))
  {
    fields := rules;
    var todo := form.values.Keys;
    while todo != {}
      invariant todo <= form.values.Keys
      invariant Reports(form, fields, DoneWith(todo))
      decreases |todo|
    {
      var key :| key in todo;
      var more := ValidateValue(form, key);
      ReportsKey(form, fields, todo, key, more);
      fields := fields + more;
      todo := todo - {key};
    }
  }

  /** The rules that do not depend on the market. */
  method ValidateRules(form: PromoInput) returns (fields: map<Field, Verdict>)
    ensures forall f | f in fields :: f in {CodeField, KindField, PercentField, EndsAtField, CapField}
    ensures forall f | f in {CodeField, KindField, PercentField, EndsAtField, CapField} ::
              (if f in fields then Some(fields[f]) else None) == Complaint(form, f)
  {
    fields := map[];
    if form.code == [] {
      fields := fields[CodeField := Required];
    } else if |form.code| > CODE_LENGTH {
      fields := fields[CodeField := TooLong];
    }
    if form.kind !in KINDS {
      fields := fields[KindField := InvalidStatus];
    }
    if form.kind == "percent" {
      if form.percent.None? {
        fields := fields[PercentField := Required];
      } else if form.percent.value < 1 || form.percent.value > 100 {
        fields := fields[PercentField := Positive];
      }
    } else if form.percent.Some? {
      fields := fields[PercentField := InvalidStatus];
    }
    if form.startsAt.Some? && form.endsAt.Some? && form.startsAt.value >= form.endsAt.value {
      fields := fields[EndsAtField := InvalidStatus];
    }
    if form.maxRedemptions.Some? && form.maxRedemptions.value < 1 {
      fields := fields[CapField := Positive];
    }
  }

  /** Before the loop over the values, the map reports just those rules. */
  lemma RulesReport(form: PromoInput, fields: map<Field, Verdict>)
    requires forall f | f in fields :: f in {CodeField, KindField, PercentField, EndsAtField, CapField}
    requires forall f | f in {CodeField, KindField, PercentField, EndsAtField, CapField} ::
               (if f in fields then Some(fields[f]) else None) == Complaint(form, f)
    ensures Reports(form, fields, DoneWith(form.values.Keys))
  {
  }

  /** One market's money. */
  method ValidateValue(form: PromoInput, key: string) returns (fields: map<Field, Verdict>)
    requires key in form.values
    ensures forall f | f in fields :: PerKey(f) && f.key == key
    ensures forall f | PerKey(f) && f.key == key ::
              (if f in fields then Some(fields[f]) else None) == Complaint(form, f)
  {
    fields := map[];
    if ParseCurrency(key).None? {
      return fields[CurrencyField(key) := InvalidStatus];
    }
    var v := form.values[key];
    if v.amount.Some? && form.kind != "fixed" {
      fields := fields[AmountField(key) := InvalidStatus];
    }
    if v.amount.Some? && v.amount.value < 1 {
      fields := fields[AmountField(key) := Positive];
    }
    if v.minSubtotal.Some? && v.minSubtotal.value < 1 {
      fields := fields[MinSubtotalField(key) := Positive];
    }
  }

  lemma ReportsKey(form: PromoInput, was: map<Field, Verdict>, todo: set<string>, key: string, more: map<Field, Verdict>)
    requires key in todo && Reports(form, was, DoneWith(todo))
    requires forall f | f in more :: PerKey(f) && f.key == key
    requires forall f | PerKey(f) && f.key == key ::
               (if f in more then Some(more[f]) else None) == Complaint(form, f)
    ensures Reports(form, was + more, DoneWith(todo - {key}))
  {
  }

  method AnyAmount(values: map<string, PromoValue>) returns (any: bool)
    ensures any <==> exists key | key in values :: values[key].amount.Some?
  {
    any := false;
    var todo := values.Keys;
    while todo != {}
      invariant todo <= values.Keys
      invariant any <==> exists key | key in values && key !in todo :: values[key].amount.Some?
      decreases |todo|
    {
      var key :| key in todo;
      if values[key].amount.Some? {
        any := true;
      }
      todo := todo - {key};
    }
  }

  // ----- What the database takes ---------------------------------------------------------

  ghost predicate Passes(form: PromoInput) {
    forall f :: Complaint(form, f).None?
  }

  predicate Positives(v: PromoValue) {
    !Below(v.amount, 1) && !Below(v.minSubtotal, 1)
  }

  const NANOS_KEPT := 1000

  /** The instant as its column keeps it, in whole microseconds. */
  function Kept(nanos: Option<int>): (micros: Option<int>)
    ensures micros.Some? <==> nanos.Some?
    ensures nanos.Some? ==> micros.value * NANOS_KEPT <= nanos.value < (micros.value + 1) * NANOS_KEPT
  {
    if nanos.Some? then Some(nanos.value / NANOS_KEPT) else None
  }

  /** The CHECK constraints, what the column types hold (no zero byte in a text) and the foreign key to the currencies. */
  predicate Storable(form: PromoInput) {
    && 0 !in form.code
    && form.kind in KINDS
    && (form.percent.Some? ==> 1 <= form.percent.value <= 100)
    && (form.kind == "percent" <==> form.percent.Some?)
    && (form.startsAt.Some? && form.endsAt.Some? ==> Kept(form.startsAt).value < Kept(form.endsAt).value)
    && (form.maxRedemptions.Some? ==> 0 < form.maxRedemptions.value <= INT_MAX)
    && (forall key | key in form.values :: Canonical(key) && Positives(form.values[key]))
  }

  /** What the schema asks of a submission that the form check lets through. */
  predicate FitsColumns(form: PromoInput) {
    && 0 !in form.code
    && (forall key | key in form.values :: key == "USD" || key == "AMD")
    && !(form.maxRedemptions.Some? && form.maxRedemptions.value > INT_MAX)
    && (form.startsAt.Some? && form.endsAt.Some? ==> Kept(form.startsAt) != Kept(form.endsAt))
  }

  /** What the form check asks beyond the schema. */
  predicate HouseRules(form: PromoInput) {
    && 0 < |form.code| <= CODE_LENGTH
    && (form.kind == "fixed" <==> HasAmount(form))
  }

  lemma PassesParts(form: PromoInput)
    requires Passes(form)
    ensures Complaint(form, CodeField).None? && Complaint(form, KindField).None? && Complaint(form, PercentField).None?
    ensures Complaint(form, EndsAtField).None? && Complaint(form, CapField).None? && Complaint(form, ValuesField).None?
    ensures forall key | key in form.values :: ParseCurrency(key).Some? && Positives(form.values[key])
    ensures forall key | key in form.values && form.values[key].amount.Some? :: form.kind == "fixed"
  {
    forall key | key in form.values
      ensures ParseCurrency(key).Some? && Positives(form.values[key])
      ensures form.values[key].amount.Some? ==> form.kind == "fixed"
    {
      assert Complaint(form, CurrencyField(key)).None?;
      assert Complaint(form, AmountField(key)).None?;
      assert Complaint(form, MinSubtotalField(key)).None?;
    }
  }

  /**
   * A submission that passes is taken by the database exactly when its code has no zero byte, every
   * currency is spelled as the currencies table spells it, the cap fits its column and the bounds fall
   * in different microseconds.
   */
  lemma PassingIsStorableIff(form: PromoInput)
    requires Passes(form)
    ensures Storable(form) <==> FitsColumns(form)
  {
    PassesParts(form);
  }

  lemma StorableFormFine(form: PromoInput, f: Field)
    requires Storable(form) && HouseRules(form) && !PerKey(f)
    ensures Complaint(form, f).None?
  {
  }

  lemma StorableValueFine(form: PromoInput, f: Field)
    requires Storable(form) && HouseRules(form) && PerKey(f)
    ensures Complaint(form, f).None?
  {
    ParsesIff(CodeOf(USD), USD);
    ParsesIff(CodeOf(AMD), AMD);
  }

  lemma PassingKeepsHouse(form: PromoInput)
    requires Passes(form)
    ensures HouseRules(form)
  {
    PassesParts(form);
  }

  /** And of what the database would take, the form check refuses exactly what breaks the house rules. */
  lemma StorablePassesIff(form: PromoInput)
    requires Storable(form)
    ensures Passes(form) <==> HouseRules(form)
  {
    if Passes(form) {
      PassingKeepsHouse(form);
    }
    if HouseRules(form) {
      forall f
        ensures Complaint(form, f).None?
      {
        if PerKey(f) {
          StorableValueFine(form, f);
        } else {
          StorableFormFine(form, f);
        }
      }
    }
  }

  /** A key in lower case passes the check and breaks the foreign key. */
  lemma LowerCaseKeyPassesUnstorable(active: bool)
    ensures var form := PromoInput(HONEY10, "percent", Some(10), None, None, None, active,
                                  map["usd" := PromoValue(None, Some(2000))]);
            Passes(form) && !Storable(form)
  {
    ParsesIff("usd", USD);
    assert "usd"[0] != CodeOf(USD)[0] && "usd"[0] != CodeOf(AMD)[0];
    assert !Canonical("usd");
    var form := PromoInput(HONEY10, "percent", Some(10), None, None, None, active,
                          map["usd" := PromoValue(None, Some(2000))]);
    assert "usd" in form.values;
  }

  /** Bounds a hundred nanoseconds apart pass the check and are one instant in the table. */
  lemma CloseBoundsPassUnstorable(active: bool)
    ensures var form := PromoInput(HONEY10, "percent", Some(10), Some(100), Some(200), None, active, map[]);
            Passes(form) && !Storable(form)
  {
  }

  // ----- What a stored code is to the price ------------------------------------------------

  /** The code as the store reads it back, with its live counts. */
  function AsPromo(form: PromoInput, id: nat, redemptions: int, used: bool): Promo
    requires form.kind in KINDS
  {
    Promo(id, form.code, KINDS[form.kind], if form.percent.Some? then form.percent.value else 0, Kept(form.startsAt),
          Kept(form.endsAt),
          form.maxRedemptions, form.active, redemptions, used,
          map c | c in CURRENCIES && CodeOf(c) in form.values :: form.values[CodeOf(c)])
  }

  /** Reading back a stored code gives what the form said, its bounds to the microsecond. */
  lemma CodeReadsBack(form: PromoInput, id: nat, redemptions: int, used: bool, now: int)
    requires Storable(form)
    ensures
      var p := AsPromo(form, id, redemptions, used);
      && p.id == id && p.text == form.code && p.active == form.active
      && p.redemptions == redemptions && p.usedByShopper == used && p.maxRedemptions == form.maxRedemptions
      && (p.kind == Percent <==> form.kind == "percent") && (p.kind == Fixed <==> form.kind == "fixed")
      && (if p.kind == Percent then form.percent == Some(p.percent) else p.percent == 0)
      && (InWindow(p, now) <==>
            && (form.startsAt.None? || Kept(form.startsAt).value <= now)
            && (form.endsAt.None? || now <= Kept(form.endsAt).value))
      && (USD in p.values <==> "USD" in form.values) && (AMD in p.values <==> "AMD" in form.values)
      && (USD in p.values ==> p.values[USD] == form.values["USD"])
      && (AMD in p.values ==> p.values[AMD] == form.values["AMD"])
  {
    assert KINDS.Keys == {"percent", "fixed", "free_shipping"};
  }

  /** Every stored code is within the ranges the price calculator relies on, house rules or not. */
  lemma StorableIsSound(form: PromoInput, id: nat, redemptions: int, used: bool)
    requires Storable(form)
    ensures SoundPromo(AsPromo(form, id, redemptions, used))
  {
  }

  /** Some shopper, at some moment, with some basket, in some market, can use the code. */
  ghost predicate CanApply(form: PromoInput)
    requires form.kind in KINDS
  {
    exists now: int, c: Currency, subtotal: nat :: IssueOf(AsPromo(form, 0, 0, false), now, c, subtotal) == NoIssue
  }

  function Opening(form: PromoInput): int {
    if form.startsAt.Some? then Kept(form.startsAt).value
    else if form.endsAt.Some? then Kept(form.endsAt).value
    else 0
  }

  function Floor(form: PromoInput, c: Currency): nat {
    var key := CodeOf(c);
    if key in form.values && form.values[key].minSubtotal.Some? && form.values[key].minSubtotal.value > 0
    then form.values[key].minSubtotal.value else 0
  }

  lemma UsableHasMoney(form: PromoInput)
    requires Storable(form) && CanApply(form)
    ensures form.active && (form.kind == "fixed" ==> HasAmount(form))
  {
    var p := AsPromo(form, 0, 0, false);
    var now: int, c: Currency, subtotal: nat :| IssueOf(p, now, c, subtotal) == NoIssue;
    if form.kind == "fixed" {
      assert CodeOf(c) in form.values && form.values[CodeOf(c)].amount.Some?;
    }
  }

  /** The first moment of its window, the least basket, a market it has money for. */
  lemma IsUsable(form: PromoInput)
    requires Storable(form) && form.active && (form.kind == "fixed" ==> HasAmount(form))
    ensures CanApply(form)
  {
    var c := USD;
    if form.kind == "fixed" {
      var key :| key in form.values && form.values[key].amount.Some?;
      c := if key == CodeOf(USD) then USD else AMD;
      assert CodeOf(c) == key;
    }
    assert c in CURRENCIES;
    assert IssueOf(AsPromo(form, 0, 0, false), Opening(form), c, Floor(form, c)) == NoIssue;
  }

  /** A stored code is of use to somebody exactly when it is switched on and, being money, names some. */
  lemma CanApplyIff(form: PromoInput)
    requires Storable(form)
    ensures CanApply(form) <==> form.active && (form.kind == "fixed" ==> HasAmount(form))
  {
    if CanApply(form) {
      UsableHasMoney(form);
    }
    if form.active && (form.kind == "fixed" ==> HasAmount(form)) {
      IsUsable(form);
    }
  }
}
