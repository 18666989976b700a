/**
 * The split calculator page (app/split/page.tsx): the amount field, the
 * rounding rule, `calculateSplit` with its two methods and `calculateSummary`.
 * Money is modelled with exact reals; the browser's binary doubles are not.
 */
module SplitPage {
  import opened Wrappers
  import opened Numerals
  import opened BillData

  // ---------------------------------------------------------------------------
  // The amount field
  // ---------------------------------------------------------------------------

  /**
   * `/^\d*\.?\d{0,2}$/`, read deterministically: the leading run of digits is
   * either the whole text, or it is followed by one dot and at most two digits.
   */
  predicate AmountPattern(s: string) {
    var k := LeadingDigits(s);
    k == |s| || (s[k] == '.' && AllDigits(s[k + 1..]) && |s| - (k + 1) <= 2)
  }

  /** The guard of `handleAmountChange`: empty text, or text matching the pattern. */
  predicate AmountTextAccepted(s: string) {
    s == "" || AmountPattern(s)
  }

  /** The regular expression as written: digits, an optional dot, then at most two digits. */
  ghost predicate MatchesAmountRegex(s: string) {
    exists i, j :: 0 <= i <= j <= |s| && AllDigits(s[..i]) && (j == i || (j == i + 1 && s[i] == '.'))
      && AllDigits(s[j..]) && |s| - j <= 2
  }

  /** Text the deterministic reading accepts matches the regular expression. */
  lemma {:induction false} AmountPatternMatchesRegex(s: string)
    requires AmountPattern(s)
    ensures MatchesAmountRegex(s)
  {
    var k := LeadingDigits(s);
    if k == |s| {
      assert s[|s|..] == [];
      assert AllDigits(s[..|s|]) && AllDigits(s[|s|..]);
    } else {
      assert AllDigits(s[..k]) && s[k] == '.' && AllDigits(s[k + 1..]);
    }
  }

  /** Text matching the regular expression is accepted by the deterministic reading. */
  lemma {:induction false} RegexMatchesAmountPattern(s: string)
    requires MatchesAmountRegex(s)
    ensures AmountPattern(s)
  {
    var i, j :| 0 <= i <= j <= |s| && AllDigits(s[..i]) && (j == i || (j == i + 1 && s[i] == '.'))
      && AllDigits(s[j..]) && |s| - j <= 2;
    if j == i {
      forall t | 0 <= t < |s| ensures IsDigit(s[t]) {
        if t < i { assert s[t] == s[..i][t]; } else { assert s[t] == s[j..][t - j]; }
      }
      assert s[..|s|] == s;
      LeadingDigitsExact(s, |s|);
    } else {
      LeadingDigitsExact(s, i);
    }
  }

  /** The deterministic reading accepts exactly the strings the regular expression matches. */
  lemma {:induction false} AmountPatternIsRegex(s: string)
    ensures AmountPattern(s) <==> MatchesAmountRegex(s)
  {
    if AmountPattern(s) {
      AmountPatternMatchesRegex(s);
    }
    if MatchesAmountRegex(s) {
      RegexMatchesAmountPattern(s);
    }
  }

  /**
   * `parseFloat` on the texts the amount field can hold: the leading digits,
   * then after a dot the digits that follow it; `None` (NaN) when there is no
   * digit on either side of the dot.
   */
  function ParseAmount(s: string): Option<real> {
    var k := LeadingDigits(s);
    var intDigits := s[..k];
    var fracDigits := FractionDigits(s);
    if intDigits == [] && fracDigits == [] then None
    else Some(DigitsValue(intDigits) as real + DigitsValue(fracDigits) as real / Pow10(|fracDigits|) as real)
  }

  /** A whole number of cents. */
  predicate IsCentMultiple(x: real) {
    (x * 100.0).Floor as real == x * 100.0
  }

  /** The digits after the dot of an accepted text: all of the rest, at most two. */
  function FractionDigits(s: string): (r: string)
    ensures AllDigits(r)
  {
    var k := LeadingDigits(s);
    if k < |s| && s[k] == '.' then s[k + 1..][..LeadingDigits(s[k + 1..])] else ""
  }

  /** In an accepted text, the dot (if any) is followed by at most two digits and nothing else. */
  lemma {:induction false} AcceptedFraction(s: string)
    requires AmountTextAccepted(s)
    ensures var k := LeadingDigits(s);
      && |FractionDigits(s)| <= 2 && AllDigits(FractionDigits(s))
      && (k < |s| ==> s[k] == '.' && FractionDigits(s) == s[k + 1..])
      && (k == |s| ==> FractionDigits(s) == "")
  {
    var k := LeadingDigits(s);
    if k < |s| {
      var rest := s[k + 1..];
      LeadingDigitsExact(rest, |rest|);
      assert rest[..|rest|] == rest;
    }
  }

  /** A whole number plus at most two decimal digits is a whole number of cents. */
  lemma {:induction false} DecimalIsCents(whole: nat, frac: nat, digits: nat)
    requires digits <= 2
    ensures IsCentMultiple(whole as real + frac as real / Pow10(digits) as real)
  {
    var p := Pow10(digits) as real;
    var n := if digits == 0 then whole * 100 + frac * 100
             else if digits == 1 then whole * 100 + frac * 10
             else whole * 100 + frac;
    assert frac as real / p * 100.0 == (n - whole * 100) as real by {
      if digits == 0 {
        assert p == 1.0 by { assert Pow10(0) == 1; }
      } else if digits == 1 {
        assert p == 10.0 by { assert Pow10(1) == 10; }
      } else {
        assert p == 100.0 by { assert Pow10(2) == 100; }
      }
    }
    assert (whole as real + frac as real / p) * 100.0 == n as real;
  }

  /** An accepted amount text reads as NaN exactly when it holds no digit. */
  lemma {:induction false} ParseAcceptedAmountNaN(s: string)
    requires AmountTextAccepted(s)
    ensures ParseAmount(s).None? <==> forall i :: 0 <= i < |s| ==> !IsDigit(s[i])
  {
    var k := LeadingDigits(s);
    var frac := FractionDigits(s);
    AcceptedFraction(s);
    assert ParseAmount(s).None? <==> k == 0 && frac == [];
    if k > 0 {
      assert IsDigit(s[0]) by { assert s[0] == s[..k][0]; }
    } else if frac != [] {
      assert IsDigit(s[1]) by { assert s[1] == frac[0]; }
    } else if k < |s| {
      assert s == ".";
    }
  }

  /** Otherwise it reads as a non-negative whole number of cents. */
  lemma {:induction false} ParseAcceptedAmountCents(s: string)
    requires AmountTextAccepted(s) && ParseAmount(s).Some?
    ensures ParseAmount(s).value >= 0.0 && IsCentMultiple(ParseAmount(s).value)
  {
    var k := LeadingDigits(s);
    var frac := FractionDigits(s);
    AcceptedFraction(s);
    assert ParseAmount(s).value == DigitsValue(s[..k]) as real + DigitsValue(frac) as real / Pow10(|frac|) as real;
    DecimalIsCents(DigitsValue(s[..k]), DigitsValue(frac), |frac|);
  }

  /** `c` cents written the usual way, `<soles>.<two digits>`. */
  function CentsText(c: nat): string {
    var cents := c % 100;
    NatToString(c / 100) + "." + [DigitChar(cents / 10), DigitChar(cents % 10)]
  }

  /** The text of `c` cents splits into its whole part and its two cent digits. */
  lemma {:induction false} CentsTextParts(c: nat)
    ensures var s := CentsText(c);
      && LeadingDigits(s) == |NatToString(c / 100)|
      && s[..LeadingDigits(s)] == NatToString(c / 100)
      && FractionDigits(s) == [DigitChar(c % 100 / 10), DigitChar(c % 100 % 10)]
      && AmountTextAccepted(s)
  {
    var whole := NatToString(c / 100);
    var frac := [DigitChar(c % 100 / 10), DigitChar(c % 100 % 10)];
    var s := CentsText(c);
    assert s[..|whole|] == whole;
    LeadingDigitsExact(s, |whole|);
    assert s[|whole| + 1..] == frac;
    LeadingDigitsExact(frac, 2);
    assert frac[..2] == frac;
  }

  /** The two cent digits read back as the cents. */
  lemma {:induction false} CentDigitsValue(cents: nat)
    requires cents < 100
    ensures DigitsValue([DigitChar(cents / 10), DigitChar(cents % 10)]) == cents
  {
    var frac := [DigitChar(cents / 10), DigitChar(cents % 10)];
    assert frac[..1] == [frac[0]] && [frac[0]][..0] == [];
    assert DigitsValue([frac[0]]) == cents / 10;
  }

  /** Every amount in whole cents can be typed into the field and is read back exactly. */
  lemma {:induction false} CentsTextRoundTrip(c: nat)
    ensures AmountTextAccepted(CentsText(c))
    ensures ParseAmount(CentsText(c)) == Some(c as real / 100.0)
  {
    CentsTextParts(c);
    DigitsValueOfNatToString(c / 100);
    CentDigitsValue(c % 100);
    assert Pow10(2) == 100;
    assert (c / 100) as real + (c % 100) as real / 100.0 == c as real / 100.0;
  }

  /**
   * `handleAmountChange`: the new text is taken exactly when it is empty or
   * matches the regular expression; otherwise the field keeps its text.
   */
  function HandleAmountChange(current: string, value: string): (next: string)
    ensures (value == "" || MatchesAmountRegex(value)) ==> next == value
    ensures !(value == "" || MatchesAmountRegex(value)) ==> next == current
    ensures AmountTextAccepted(current) ==> AmountTextAccepted(next)
  {
    AmountPatternIsRegex(value);
    if value == "" || AmountPattern(value) then value else current
  }

  /** The amount field after a series of edits, starting from its initial `''`. */
  function AmountAfterEdits(edits: seq<string>): string {
    if edits == [] then "" else HandleAmountChange(AmountAfterEdits(edits[..|edits| - 1]), edits[|edits| - 1])
  }

  /** Whatever is typed, the amount field only ever holds accepted text. */
  lemma {:induction false} AmountAlwaysAccepted(edits: seq<string>)
    ensures AmountTextAccepted(AmountAfterEdits(edits))
  {
    if edits != [] {
      AmountAlwaysAccepted(edits[..|edits| - 1]);
    }
  }

  // ---------------------------------------------------------------------------
  // Rounding
  // ---------------------------------------------------------------------------

  /** `Math.ceil` on exact reals. */
  function Ceil(x: real): (r: int)
    ensures x <= r as real < x + 1.0
  {
    -((-x).Floor)
  }

  /** A whole number of ten-cent units. */
  predicate IsTenCentMultiple(x: real) {
    (x * 10.0).Floor as real == x * 10.0
  }

  /** `roundToNearestTenCents`: despite its name, it always rounds up to a multiple of 0.10. */
  function RoundToTenCents(x: real): (r: real)
    ensures IsTenCentMultiple(r)
    ensures x <= r < x + 0.1
  {
    Ceil(x * 10.0) as real / 10.0
  }

  /** The rounded value is the least multiple of 0.10 that is not below the input. */
  lemma {:induction false} RoundIsLeastTenCentBound(x: real, y: real)
    requires IsTenCentMultiple(y) && x <= y
    ensures RoundToTenCents(x) <= y
  {
    var m := (y * 10.0).Floor;
    assert Ceil(x * 10.0) <= m;
  }

  /** An amount already on a multiple of 0.10 is left as it is. */
  lemma {:induction false} RoundKeepsTenCentMultiples(x: real)
    requires IsTenCentMultiple(x)
    ensures RoundToTenCents(x) == x
  {
    RoundIsLeastTenCentBound(x, x);
  }

  /**
   * The rounding note's examples under the rule the code applies: 15.21 gives
   * 15.30 and 25.67 gives 25.70 as the note says, but 14.34 gives 14.40, not
   * the 14.30 the note prints.
   */
  lemma {:induction false} RoundingNoteExamples()
    ensures RoundToTenCents(15.21) == 15.3
    ensures RoundToTenCents(25.67) == 25.7
    ensures RoundToTenCents(14.34) == 14.4 && RoundToTenCents(14.34) != 14.3
  {
  }

  // ---------------------------------------------------------------------------
  // calculateSplit
  // ---------------------------------------------------------------------------

  datatype CalculationMethod = PerPerson | Equal

  /**
   * One row of `splitResults`. Both branches store the raw amount rounded up
   * to ten cents as `roundedAmount` and the raw amount over the floor's people
   * (0 without people) as `amountPerPerson`, so those two are derived here.
   */
  datatype SplitResult = SplitResult(floorName: string, peopleCount: int, amount: real, percentage: real)
  {
    function RoundedAmount(): real {
      RoundToTenCents(amount)
    }

    function AmountPerPerson(): real {
      if peopleCount > 0 then amount / peopleCount as real else 0.0
    }
  }

  /**
   * What one unit receives, computed once before the loop: per person
   * `amount / totalPeople`, equally `amount / floorsCount` per floor, where
   * every entry of the mapping counts as a floor.
   */
  function UnitShare(m: CalculationMethod, amount: real, totalPeople: int, floorsCount: nat): real
    requires totalPeople != 0 && floorsCount > 0
  {
    match m
    case PerPerson => amount / totalPeople as real
    case Equal => amount / floorsCount as real
  }

  /** The percentage one unit stands for: `100 / totalPeople` per person, `100 / floorsCount` per floor. */
  function UnitPercentage(m: CalculationMethod, totalPeople: int, floorsCount: nat): real
    requires totalPeople != 0 && floorsCount > 0
  {
    match m
    case PerPerson => 100.0 / totalPeople as real
    case Equal => 100.0 / floorsCount as real
  }

  /**
   * The row `calculateSplit` pushes for entry `e` under method `m`, given the
   * unit share and unit percentage: per person both scale with the entry's
   * people, equally every entry gets one unit.
   */
  function RowFor(e: FloorEntry, m: CalculationMethod, share: real, percent: real): SplitResult {
    match m
    case PerPerson => SplitResult(e.name, e.people, share * e.people as real, percent * e.people as real)
    case Equal => SplitResult(e.name, e.people, share, percent)
  }

  /** The rows for `fs`, pushed in mapping order. */
  function Rows(fs: seq<FloorEntry>, m: CalculationMethod, share: real, percent: real): seq<SplitResult> {
    if fs == [] then []
    else Rows(fs[..|fs| - 1], m, share, percent) + [RowFor(fs[|fs| - 1], m, share, percent)]
  }

  /**
   * What `calculateSplit` leaves in `splitResults` for the parsed amount
   * (`None` for NaN) and the saved `floorPeople`.
   */
  function Split(amount: Option<real>, fs: seq<FloorEntry>, m: CalculationMethod): seq<SplitResult> {
    if amount.None? || amount.value <= 0.0 then []
    else if TotalPeople(fs) == 0 then []
    else Rows(fs, m, UnitShare(m, amount.value, TotalPeople(fs), |fs|), UnitPercentage(m, TotalPeople(fs), |fs|))
  }

  /** Pushing the row of the next entry extends the rows of the entries before it. */
  lemma {:induction false} RowsExtend(fs: seq<FloorEntry>, i: nat, m: CalculationMethod, share: real, percent: real)
    requires i < |fs|
    ensures Rows(fs[..i + 1], m, share, percent)
         == Rows(fs[..i], m, share, percent) + [RowFor(fs[i], m, share, percent)]
  {
    assert fs[..i + 1][..i] == fs[..i];
  }

  /** The loop's `(people / totalPeople) * 100` is `people` units of `100 / totalPeople`. */
  lemma {:induction false} PerPersonPercentage(people: int, totalPeople: int)
    requires totalPeople != 0
    ensures people as real / totalPeople as real * 100.0 == 100.0 / totalPeople as real * people as real
  {
    ScaledRatio(people as real, totalPeople as real, 100.0);
  }

  /** The first loop of `calculateSplit`: the people of all floors. */
  method CountPeople(fs: seq<FloorEntry>) returns (totalPeople: int)
    ensures totalPeople == TotalPeople(fs)
  {
    totalPeople := 0;
    var i := 0;
    while i < |fs|
      invariant 0 <= i <= |fs|
      invariant totalPeople == TotalPeople(fs[..i])
    {
      assert fs[..i + 1][..i] == fs[..i];
      totalPeople := totalPeople + fs[i].people;
      i := i + 1;
    }
    assert fs[..|fs|] == fs;
  }

  /** The per-person branch: every floor pays `amount / totalPeople` for each of its people. */
  method PushPerPersonRows(fs: seq<FloorEntry>, amount: real, totalPeople: int) returns (results: seq<SplitResult>)
    requires totalPeople != 0 && fs != []
    ensures results == Rows(fs, PerPerson, UnitShare(PerPerson, amount, totalPeople, |fs|), UnitPercentage(PerPerson, totalPeople, |fs|))
  {
    var amountPerPerson := amount / totalPeople as real;
    ghost var percent := UnitPercentage(PerPerson, totalPeople, |fs|);
    results := [];
    var i := 0;
    while i < |fs|
      invariant 0 <= i <= |fs|
      invariant results == Rows(fs[..i], PerPerson, amountPerPerson, percent)
    {
      RowsExtend(fs, i, PerPerson, amountPerPerson, percent);
      var people := fs[i].people;
      var rawAmount := amountPerPerson * people as real;
      var row := SplitResult(fs[i].name, people, rawAmount, people as real / totalPeople as real * 100.0);
      PerPersonPercentage(people, totalPeople);
      assert row == RowFor(fs[i], PerPerson, amountPerPerson, percent);
      results := results + [row];
      i := i + 1;
    }
    assert fs[..|fs|] == fs;
  }

  /** The equal branch: one share and one percentage for every floor. */
  method PushEqualRows(fs: seq<FloorEntry>, amount: real, totalPeople: int) returns (results: seq<SplitResult>)
    requires totalPeople != 0 && fs != []
    ensures results == Rows(fs, Equal, UnitShare(Equal, amount, totalPeople, |fs|), UnitPercentage(Equal, totalPeople, |fs|))
  {
    var floorsCount := |fs|;
    var rawAmountPerFloor := amount / floorsCount as real;
    var percentage := 100.0 / floorsCount as real;
    results := [];
    var i := 0;
    while i < |fs|
      invariant 0 <= i <= |fs|
      invariant results == Rows(fs[..i], Equal, rawAmountPerFloor, percentage)
    {
      RowsExtend(fs, i, Equal, rawAmountPerFloor, percentage);
      results := results + [SplitResult(fs[i].name, fs[i].people, rawAmountPerFloor, percentage)];
      i := i + 1;
    }
    assert fs[..|fs|] == fs;
  }

  /** `calculateSplit`: the guards on the amount and on the people, then one of the two branches. */
  method CalculateSplit(amount: Option<real>, fs: seq<FloorEntry>, m: CalculationMethod) returns (results: seq<SplitResult>)
    ensures results == Split(amount, fs, m)
  {
    if amount.None? || amount.value <= 0.0 {
      return [];
    }
    var totalPeople := CountPeople(fs);
    if totalPeople == 0 {
      return [];
    }
    if m == PerPerson {
      results := PushPerPersonRows(fs, amount.value, totalPeople);
    } else {
      results := PushEqualRows(fs, amount.value, totalPeople);
    }
  }

  /** The rows follow the mapping one to one and in order. */
  lemma {:induction false} RowsAt(fs: seq<FloorEntry>, m: CalculationMethod, share: real, percent: real)
    ensures |Rows(fs, m, share, percent)| == |fs|
    ensures forall k :: 0 <= k < |fs| ==> Rows(fs, m, share, percent)[k] == RowFor(fs[k], m, share, percent)
  {
    if fs != [] {
      var init := fs[..|fs| - 1];
      RowsAt(init, m, share, percent);
      assert forall k :: 0 <= k < |init| ==> fs[k] == init[k];
    }
  }

  /**
   * The result list is empty exactly when the amount is NaN or not positive,
   * or the people counts add up to zero.
   */
  lemma {:induction false} SplitEmptyIff(amount: Option<real>, fs: seq<FloorEntry>, m: CalculationMethod)
    ensures Split(amount, fs, m) == [] <==> amount.None? || amount.value <= 0.0 || TotalPeople(fs) == 0
  {
    if amount.Some? && amount.value > 0.0 && TotalPeople(fs) != 0 {
      var T := TotalPeople(fs);
      RowsAt(fs, m, UnitShare(m, amount.value, T, |fs|), UnitPercentage(m, T, |fs|));
    }
  }

  /** Otherwise there is one row per entry, in mapping order, naming the entry and its people. */
  lemma {:induction false} SplitShape(amount: Option<real>, fs: seq<FloorEntry>, m: CalculationMethod)
    requires Split(amount, fs, m) != []
    ensures |Split(amount, fs, m)| == |fs|
    ensures forall k :: 0 <= k < |fs| ==>
      Split(amount, fs, m)[k].floorName == fs[k].name && Split(amount, fs, m)[k].peopleCount == fs[k].people
  {
    var T := TotalPeople(fs);
    RowsAt(fs, m, UnitShare(m, amount.value, T, |fs|), UnitPercentage(m, T, |fs|));
  }

  /** Left-to-right sums over the rows (the `reduce` folds of `calculateSummary` and two more). */
  function SumAmount(rs: seq<SplitResult>): real {
    if rs == [] then 0.0 else SumAmount(rs[..|rs| - 1]) + rs[|rs| - 1].amount
  }

  function SumRounded(rs: seq<SplitResult>): real {
    if rs == [] then 0.0 else SumRounded(rs[..|rs| - 1]) + rs[|rs| - 1].RoundedAmount()
  }

  function SumPercentage(rs: seq<SplitResult>): real {
    if rs == [] then 0.0 else SumPercentage(rs[..|rs| - 1]) + rs[|rs| - 1].percentage
  }

  function SumPeople(rs: seq<SplitResult>): int {
    if rs == [] then 0 else SumPeople(rs[..|rs| - 1]) + rs[|rs| - 1].peopleCount
  }

  /** Appending a row adds its fields to every sum. */
  lemma {:induction false} SumsAppend(rs: seq<SplitResult>, r: SplitResult)
    ensures SumAmount(rs + [r]) == SumAmount(rs) + r.amount
    ensures SumRounded(rs + [r]) == SumRounded(rs) + r.RoundedAmount()
    ensures SumPercentage(rs + [r]) == SumPercentage(rs) + r.percentage
    ensures SumPeople(rs + [r]) == SumPeople(rs) + r.peopleCount
  {
    assert (rs + [r])[..|rs|] == rs;
  }

  /** `c * a + c * b == c * (a + b)`, for a unit value `c` and two counts. */
  lemma {:induction false} Distribute(c: real, a: int, b: int)
    ensures c * a as real + c * b as real == c * (a + b) as real
  {
  }

  /** Dividing by `t` and multiplying back gives the dividend. */
  lemma {:induction false} DivTimes(a: real, t: real)
    requires t != 0.0
    ensures a / t * t == a
  {
  }

  /** Dividing before or after scaling gives the same ratio. */
  lemma {:induction false} ScaledRatio(x: real, t: real, c: real)
    requires t != 0.0
    ensures x / t * c == c / t * x == c * x / t
  {
  }

  /** Scaling by a non-zero factor and dividing by it again gives the value back. */
  lemma {:induction false} ScaledBack(x: real, p: real)
    requires p != 0.0
    ensures x * p / p == x
  {
  }

  /** The rows copy each entry's people count, so their people add up to the entries' total. */
  lemma {:induction false} RowsPeople(fs: seq<FloorEntry>, m: CalculationMethod, share: real, percent: real)
    ensures SumPeople(Rows(fs, m, share, percent)) == TotalPeople(fs)
  {
    if fs != [] {
      var init := fs[..|fs| - 1];
      RowsPeople(init, m, share, percent);
      SumsAppend(Rows(init, m, share, percent), RowFor(fs[|fs| - 1], m, share, percent));
    }
  }

  /**
   * Rounding every row up adds between zero and ten cents per row: the rounded
   * total is at least the raw total and less than ten cents per entry above it.
   */
  lemma {:induction false} RowsRoundingSurplus(fs: seq<FloorEntry>, m: CalculationMethod, share: real, percent: real)
    ensures var rs := Rows(fs, m, share, percent);
      && SumAmount(rs) <= SumRounded(rs)
      && (fs != [] ==> SumRounded(rs) - SumAmount(rs) < 0.1 * |fs| as real)
  {
    if fs != [] {
      var init := fs[..|fs| - 1];
      RowsRoundingSurplus(init, m, share, percent);
      SumsAppend(Rows(init, m, share, percent), RowFor(fs[|fs| - 1], m, share, percent));
    }
  }

  /** Per person, the raw shares add up to the unit share times the entries' people. */
  lemma {:induction false} PerPersonAmountSum(fs: seq<FloorEntry>, share: real, percent: real)
    ensures SumAmount(Rows(fs, PerPerson, share, percent)) == share * TotalPeople(fs) as real
  {
    if fs != [] {
      var init, last := fs[..|fs| - 1], fs[|fs| - 1];
      PerPersonAmountSum(init, share, percent);
      SumsAppend(Rows(init, PerPerson, share, percent), RowFor(last, PerPerson, share, percent));
      Distribute(share, TotalPeople(init), last.people);
    }
  }

  /** Per person, the percentages add up to the unit percentage times the entries' people. */
  lemma {:induction false} PerPersonPercentageSum(fs: seq<FloorEntry>, share: real, percent: real)
    ensures SumPercentage(Rows(fs, PerPerson, share, percent)) == percent * TotalPeople(fs) as real
  {
    if fs != [] {
      var init, last := fs[..|fs| - 1], fs[|fs| - 1];
      PerPersonPercentageSum(init, share, percent);
      SumsAppend(Rows(init, PerPerson, share, percent), RowFor(last, PerPerson, share, percent));
      Distribute(percent, TotalPeople(init), last.people);
    }
  }

  /** Equally, every row adds one unit share. */
  lemma {:induction false} EqualAmountSum(fs: seq<FloorEntry>, share: real, percent: real)
    ensures SumAmount(Rows(fs, Equal, share, percent)) == share * |fs| as real
  {
    if fs != [] {
      var init := fs[..|fs| - 1];
      EqualAmountSum(init, share, percent);
      SumsAppend(Rows(init, Equal, share, percent), RowFor(fs[|fs| - 1], Equal, share, percent));
      Distribute(share, |init|, 1);
    }
  }

  /** Equally, every row adds one unit percentage. */
  lemma {:induction false} EqualPercentageSum(fs: seq<FloorEntry>, share: real, percent: real)
    ensures SumPercentage(Rows(fs, Equal, share, percent)) == percent * |fs| as real
  {
    if fs != [] {
      var init := fs[..|fs| - 1];
      EqualPercentageSum(init, share, percent);
      SumsAppend(Rows(init, Equal, share, percent), RowFor(fs[|fs| - 1], Equal, share, percent));
      Distribute(percent, |init|, 1);
    }
  }

  /**
   * Per person, each floor's raw share is `amount / totalPeople` per person and
   * its percentage `100 / totalPeople` per person.
   */
  lemma {:induction false} PerPersonShares(amount: real, fs: seq<FloorEntry>)
    requires Split(Some(amount), fs, PerPerson) != []
    ensures var rs := Split(Some(amount), fs, PerPerson);
      && |rs| == |fs|
      && forall k :: 0 <= k < |fs| ==>
           rs[k] == SplitResult(fs[k].name, fs[k].people,
                                amount / TotalPeople(fs) as real * fs[k].people as real,
                                100.0 / TotalPeople(fs) as real * fs[k].people as real)
  {
    RowsAt(fs, PerPerson, amount / TotalPeople(fs) as real, 100.0 / TotalPeople(fs) as real);
  }

  /** Per person, the raw shares add up to the amount. */
  lemma {:induction false} PerPersonAmountTotal(amount: real, fs: seq<FloorEntry>)
    requires Split(Some(amount), fs, PerPerson) != []
    ensures SumAmount(Split(Some(amount), fs, PerPerson)) == amount
  {
    PerPersonUnitsTotal(fs, amount, 100.0 / TotalPeople(fs) as real, TotalPeople(fs));
  }

  /** Per person, the percentages add up to 100. */
  lemma {:induction false} PerPersonPercentageTotal(amount: real, fs: seq<FloorEntry>)
    requires Split(Some(amount), fs, PerPerson) != []
    ensures SumPercentage(Split(Some(amount), fs, PerPerson)) == 100.0
  {
    PerPersonPercentUnitsTotal(fs, amount / TotalPeople(fs) as real, TotalPeople(fs));
  }

  /** Splitting `amount` into `totalPeople` units and paying one per person pays out `amount`. */
  lemma {:induction false} PerPersonUnitsTotal(fs: seq<FloorEntry>, amount: real, percent: real, totalPeople: int)
    requires totalPeople == TotalPeople(fs) && totalPeople != 0
    ensures SumAmount(Rows(fs, PerPerson, amount / totalPeople as real, percent)) == amount
  {
    PerPersonAmountSum(fs, amount / totalPeople as real, percent);
    DivTimes(amount, totalPeople as real);
  }

  /** Splitting 100 into `totalPeople` units and giving one per person gives out 100. */
  lemma {:induction false} PerPersonPercentUnitsTotal(fs: seq<FloorEntry>, share: real, totalPeople: int)
    requires totalPeople == TotalPeople(fs) && totalPeople != 0
    ensures SumPercentage(Rows(fs, PerPerson, share, 100.0 / totalPeople as real)) == 100.0
  {
    PerPersonPercentageSum(fs, share, 100.0 / totalPeople as real);
    DivTimes(100.0, totalPeople as real);
  }

  /**
   * Equal: every row has the same raw share `amount / floorsCount` (and so the
   * same rounded share) and the percentage `100 / floorsCount`, where
   * floorsCount counts every entry, floors without people included.
   */
  lemma {:induction false} EqualShares(amount: real, fs: seq<FloorEntry>)
    requires Split(Some(amount), fs, Equal) != []
    ensures var rs := Split(Some(amount), fs, Equal);
      && |rs| == |fs|
      && forall k :: 0 <= k < |fs| ==>
           rs[k] == SplitResult(fs[k].name, fs[k].people, amount / |fs| as real, 100.0 / |fs| as real)
  {
    RowsAt(fs, Equal, amount / |fs| as real, 100.0 / |fs| as real);
  }

  /** Equally, the raw shares add up to the amount. */
  lemma {:induction false} EqualAmountTotal(amount: real, fs: seq<FloorEntry>)
    requires Split(Some(amount), fs, Equal) != []
    ensures SumAmount(Split(Some(amount), fs, Equal)) == amount
  {
    EqualAmountSum(fs, amount / |fs| as real, 100.0 / |fs| as real);
    DivTimes(amount, |fs| as real);
  }

  /** Equally, the percentages add up to 100. */
  lemma {:induction false} EqualPercentageTotal(amount: real, fs: seq<FloorEntry>)
    requires Split(Some(amount), fs, Equal) != []
    ensures SumPercentage(Split(Some(amount), fs, Equal)) == 100.0
  {
    EqualPercentageSum(fs, amount / |fs| as real, 100.0 / |fs| as real);
    DivTimes(100.0, |fs| as real);
  }

  /**
   * With no negative counts, a row's per-person figure is 0 exactly when the
   * floor has no people.
   */
  lemma {:induction false} AmountPerPersonZeroIff(amount: Option<real>, fs: seq<FloorEntry>, m: CalculationMethod)
    requires forall k :: 0 <= k < |fs| ==> fs[k].people >= 0
    ensures var rs := Split(amount, fs, m);
      forall k :: 0 <= k < |rs| ==> (rs[k].AmountPerPerson() == 0.0 <==> rs[k].peopleCount == 0)
  {
    var rs := Split(amount, fs, m);
    if rs != [] {
      var T := TotalPeople(fs);
      var share := UnitShare(m, amount.value, T, |fs|);
      NonNegativeTotal(fs);
      assert share > 0.0;
      RowsAt(fs, m, share, UnitPercentage(m, T, |fs|));
      forall k | 0 <= k < |rs|
        ensures rs[k].AmountPerPerson() == 0.0 <==> rs[k].peopleCount == 0
      {
        RowPerPersonPositive(rs[k], fs[k], m, share, UnitPercentage(m, T, |fs|));
      }
    }
  }

  /** A row for a floor with people and a positive unit share has a positive per-person figure. */
  lemma {:induction false} RowPerPersonPositive(r: SplitResult, e: FloorEntry, m: CalculationMethod, share: real, percent: real)
    requires r == RowFor(e, m, share, percent) && share > 0.0 && e.people >= 0
    ensures r.AmountPerPerson() == 0.0 <==> r.peopleCount == 0
  {
    if e.people > 0 {
      assert r.amount > 0.0;
    }
  }

  /**
   * Per person, every floor with people pays the same `amount / totalPeople`
   * for each of them.
   */
  lemma {:induction false} PerPersonSameRate(amount: real, fs: seq<FloorEntry>, k: int)
    requires Split(Some(amount), fs, PerPerson) != [] && 0 <= k < |fs| && fs[k].people > 0
    ensures |Split(Some(amount), fs, PerPerson)| == |fs|
    ensures Split(Some(amount), fs, PerPerson)[k].AmountPerPerson() == amount / TotalPeople(fs) as real
  {
    var T := TotalPeople(fs);
    RowsAt(fs, PerPerson, amount / T as real, 100.0 / T as real);
    ScaledBack(amount / T as real, fs[k].people as real);
  }

  /** Counts that are never negative add up to a non-negative total. */
  lemma {:induction false} NonNegativeTotal(fs: seq<FloorEntry>)
    requires forall k :: 0 <= k < |fs| ==> fs[k].people >= 0
    ensures TotalPeople(fs) >= 0
  {
    if fs != [] {
      NonNegativeTotal(fs[..|fs| - 1]);
    }
  }

  /** 100 among floors of 3 and 2 people: 20 per person, so 60 and 40, or 60% and 40%. */
  lemma {:induction false} PerPersonExample()
    ensures var rs := Split(Some(100.0), [FloorEntry("floor1", 3), FloorEntry("floor2", 2)], PerPerson);
      && rs == [SplitResult("floor1", 3, 60.0, 60.0), SplitResult("floor2", 2, 40.0, 40.0)]
      && rs[0].RoundedAmount() == 60.0 && rs[1].RoundedAmount() == 40.0
      && rs[0].AmountPerPerson() == 20.0 && rs[1].AmountPerPerson() == 20.0
  {
    var fs := [FloorEntry("floor1", 3), FloorEntry("floor2", 2)];
    assert fs[..1][..0] == [] && fs[..1] == [fs[0]];
    assert TotalPeople(fs[..1]) == 3;
    assert TotalPeople(fs) == 5;
    RowsAt(fs, PerPerson, 100.0 / 5.0, 100.0 / 5.0);
    var rs := Split(Some(100.0), fs, PerPerson);
    assert rs[0] == SplitResult("floor1", 3, 60.0, 60.0);
    assert rs[1] == SplitResult("floor2", 2, 40.0, 40.0);
    RoundKeepsTenCentMultiples(60.0);
    RoundKeepsTenCentMultiples(40.0);
  }

  /** 100 equally among three floors: a third each, all rounded up to the same 33.40. */
  lemma {:induction false} EqualExample()
    ensures var rs := Split(Some(100.0), [FloorEntry("floor1", 1), FloorEntry("floor2", 1), FloorEntry("floor3", 1)], Equal);
      && |rs| == 3
      && forall k :: 0 <= k < 3 ==> rs[k].amount == 100.0 / 3.0 && rs[k].RoundedAmount() == 33.4
  {
    var fs := [FloorEntry("floor1", 1), FloorEntry("floor2", 1), FloorEntry("floor3", 1)];
    assert fs[..2][..1][..0] == [] && fs[..2][..1] == [fs[0]] && fs[..2] == [fs[0], fs[1]];
    assert TotalPeople(fs[..2][..1]) == 1;
    assert TotalPeople(fs[..2]) == 2;
    assert TotalPeople(fs) == 3;
    EqualShares(100.0, fs);
    assert RoundToTenCents(100.0 / 3.0) == 33.4 by {
      assert Ceil(100.0 / 3.0 * 10.0) == 334;
    }
  }

  // ---------------------------------------------------------------------------
  // calculateSummary and the recalculation effect
  // ---------------------------------------------------------------------------

  datatype Summary = Summary(totalCalculated: real, totalPeople: int, averagePerPerson: real)

  /**
   * `calculateSummary`, given the results and the parsed amount (which exists
   * whenever the results are not empty).
   */
  function CalculateSummary(results: seq<SplitResult>, amount: real): (s: Option<Summary>)
    ensures s.None? <==> results == []
    ensures s.Some? && s.value.totalPeople <= 0 ==> s.value.averagePerPerson == 0.0
  {
    if results == [] then None
    else
      var totalPeople := SumPeople(results);
      Some(Summary(SumRounded(results), totalPeople, if totalPeople > 0 then amount / totalPeople as real else 0.0))
  }

  /**
   * The summary of a split: its people are the mapping's total, its total is
   * the sum of the rounded rows, at least the amount and less than ten cents
   * per floor above it, so the rounding difference shown is never negative.
   */
  lemma {:induction false} SummaryOfSplit(amount: real, fs: seq<FloorEntry>, m: CalculationMethod)
    requires Split(Some(amount), fs, m) != []
    ensures var s := CalculateSummary(Split(Some(amount), fs, m), amount);
      && s.Some?
      && s.value.totalPeople == TotalPeople(fs)
      && s.value.totalCalculated == SumRounded(Split(Some(amount), fs, m))
      && amount <= s.value.totalCalculated < amount + 0.1 * |fs| as real
      && (TotalPeople(fs) > 0 ==> s.value.averagePerPerson == amount / TotalPeople(fs) as real)
  {
    var T := TotalPeople(fs);
    var share := UnitShare(m, amount, T, |fs|);
    RowsPeople(fs, m, share, UnitPercentage(m, T, |fs|));
    RowsRoundingSurplus(fs, m, share, UnitPercentage(m, T, |fs|));
    if m == PerPerson {
      PerPersonAmountTotal(amount, fs);
    } else {
      EqualAmountTotal(amount, fs);
    }
  }

  /**
   * The recalculation effect: with a saved configuration, non-empty amount
   * text that parses, it runs `calculateSplit`; otherwise it clears the results.
   */
  function PageResults(splitData: Option<SplitBillData>, amountText: string, m: CalculationMethod): (rs: seq<SplitResult>)
    ensures splitData.None? ==> rs == []
    ensures splitData.Some? ==> rs == Split(ParseAmount(amountText), splitData.value.floorPeople, m)
  {
    if splitData.Some? && amountText != "" && ParseAmount(amountText).Some? then
      Split(ParseAmount(amountText), splitData.value.floorPeople, m)
    else []
  }
}
