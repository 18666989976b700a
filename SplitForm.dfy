/**
 * The distribution form (app/split-form/page.tsx): a two-step wizard whose
 * first step asks for the number of floors and of people, and whose second
 * step asks how many people live on each floor, offers to distribute them
 * automatically, and saves the configuration once the counts add up.
 *
 * The form library's values are a map from field name to number; a field
 * that is missing stands for an empty input (`undefined` or `NaN`).
 */
module SplitForm {
  import opened Wrappers
  import opened BillData
  import opened SplitPage

  // ---------------------------------------------------------------------------
  // Field values
  // ---------------------------------------------------------------------------

  /** `Number(x)` of a field: `None` for an empty field (`NaN`). */
  function FieldNumber(values: map<string, int>, key: string): (r: Option<int>)
    ensures r.Some? <==> key in values
  {
    if key in values then Some(values[key]) else None
  }

  /** `Number(x) || 0`: an empty field, like a zero, counts as 0. */
  function FieldOrZero(values: map<string, int>, key: string): (r: int)
    ensures key !in values ==> r == 0
  {
    FieldNumber(values, key).GetOr(0)
  }

  /** Writing `Number` of an input into the form: an empty input removes the value. */
  function SetField(values: map<string, int>, key: string, v: Option<int>): (r: map<string, int>)
    ensures FieldNumber(r, key) == v
    ensures forall k :: k != key ==> FieldNumber(r, k) == FieldNumber(values, k)
  {
    if v.Some? then values[key := v.value] else values - {key}
  }

  /** The counts of floors `1..n`, as `calculateCurrentTotal` and `onSubmit` read them. */
  function FloorValues(values: map<string, int>, n: nat): (vs: seq<int>)
    ensures |vs| == n
  {
    if n == 0 then [] else FloorValues(values, n - 1) + [FieldOrZero(values, FloorKey(n))]
  }

  /** The counts of the floors on screen add up to this. */
  function CurrentTotal(values: map<string, int>, n: nat): int {
    SumInts(FloorValues(values, n))
  }

  /** Floor `i` of the form shows the value of field `floor<i>`. */
  lemma {:induction false} FloorValuesAt(values: map<string, int>, n: nat, i: nat)
    requires 1 <= i <= n
    ensures FloorValues(values, n)[i - 1] == FieldOrZero(values, FloorKey(i))
  {
    if i < n {
      FloorValuesAt(values, n - 1, i);
    }
  }

  // ---------------------------------------------------------------------------
  // The clamping effects
  // ---------------------------------------------------------------------------

  /**
   * The effect on a watched count (`floors` or `totalPeople`): a non-empty,
   * non-zero value replaces the state, and a negative one is replaced by 1;
   * an empty field or a 0 leaves the state as it is.
   */
  function Clamped(current: int, watched: Option<int>): (r: int)
    ensures watched.Some? && watched.value > 0 ==> r == watched.value
    ensures watched.Some? && watched.value < 0 ==> r == 1
    ensures watched.None? || watched.value == 0 ==> r == current
  {
    if watched.Some? && watched.value != 0 then
      (if watched.value > 0 then watched.value else 1)
    else current
  }

  /** A positive state count stays positive, whatever is typed. */
  lemma {:induction false} ClampedStaysPositive(current: int, watched: Option<int>)
    requires current >= 1
    ensures Clamped(current, watched) >= 1
  {
  }

  // ---------------------------------------------------------------------------
  // Validation rules of the fields
  // ---------------------------------------------------------------------------

  /** `floors`: required, between 1 and 10. */
  predicate FloorsFieldValid(values: map<string, int>) {
    "floors" in values && 1 <= values["floors"] <= 10
  }

  /** `totalPeople`: required, at least 1. */
  predicate TotalPeopleFieldValid(values: map<string, int>) {
    "totalPeople" in values && values["totalPeople"] >= 1
  }

  /** `floor1..floor<n>`: required, at least 0. */
  predicate FloorFieldsValid(values: map<string, int>, n: nat) {
    forall i {:trigger FloorKey(i)} :: 1 <= i <= n ==> FloorKey(i) in values && values[FloorKey(i)] >= 0
  }

  /** What `trigger(['floors', 'totalPeople'])` checks on step 0. */
  predicate ConfigFieldsValid(values: map<string, int>) {
    FloorsFieldValid(values) && TotalPeopleFieldValid(values)
  }

  /** What `trigger()` checks on step 1: the configuration and the floors on screen. */
  predicate AllFieldsValid(values: map<string, int>, n: nat) {
    ConfigFieldsValid(values) && FloorFieldsValid(values, n)
  }

  /** Valid floor fields hold no negative count, so the floors on screen add up to at least 0. */
  lemma {:induction false} ValidFloorsNonNegative(values: map<string, int>, n: nat)
    requires FloorFieldsValid(values, n)
    ensures forall k :: 0 <= k < n ==> FloorValues(values, n)[k] >= 0
    ensures CurrentTotal(values, n) >= 0
  {
    if n > 0 {
      ValidFloorsNonNegative(values, n - 1);
      assert FloorValues(values, n)[..n - 1] == FloorValues(values, n - 1);
      assert FloorKey(n) in values;
    }
  }

  // ---------------------------------------------------------------------------
  // autoDistribute
  // ---------------------------------------------------------------------------

  /** The counts the loop of `autoDistribute` writes into its first `n` floors. */
  function DistributionPrefix(base: int, remainder: int, n: nat): (vs: seq<int>)
    ensures |vs| == n
  {
    if n == 0 then []
    else DistributionPrefix(base, remainder, n - 1) + [if n - 1 < remainder then base + 1 else base]
  }

  /**
   * `autoDistribute`: every floor gets `floor(totalPeople / floors)`, and the
   * first `totalPeople % floors` floors one more.
   */
  function AutoDistribution(totalPeople: int, floors: nat): (vs: seq<int>)
    requires floors > 0
    ensures |vs| == floors
  {
    DistributionPrefix(totalPeople / floors, totalPeople % floors, floors)
  }

  /** Floor index `k` (from 0) of the prefix gets one extra exactly when `k < remainder`. */
  lemma {:induction false} DistributionPrefixAt(base: int, remainder: int, n: nat, k: nat)
    requires k < n
    ensures DistributionPrefix(base, remainder, n)[k] == if k < remainder then base + 1 else base
  {
    if k < n - 1 {
      DistributionPrefixAt(base, remainder, n - 1, k);
    }
  }

  /** The prefix adds up to `n` bases plus one for each of its floors below `remainder`. */
  lemma {:induction false} DistributionPrefixSum(base: int, remainder: nat, n: nat)
    ensures SumInts(DistributionPrefix(base, remainder, n)) == n * base + (if n < remainder then n else remainder)
  {
    if n > 0 {
      var vs := DistributionPrefix(base, remainder, n);
      DistributionPrefixSum(base, remainder, n - 1);
      assert vs[..n - 1] == DistributionPrefix(base, remainder, n - 1);
      assert (n - 1) * base + base == n * base;
    }
  }

  /** The automatic distribution assigns exactly `totalPeople` people. */
  lemma {:induction false} AutoDistributionSum(totalPeople: int, floors: nat)
    requires totalPeople > 0 && floors > 0
    ensures SumInts(AutoDistribution(totalPeople, floors)) == totalPeople
  {
    DistributionPrefixSum(totalPeople / floors, totalPeople % floors, floors);
    DivMod(totalPeople, floors);
  }

  /** Integer division of positive counts: quotient times divisor plus a smaller remainder. */
  lemma {:induction false} DivMod(a: int, b: int)
    requires a > 0 && b > 0
    ensures a % b < b && b * (a / b) + a % b == a
  {
  }

  /**
   * Every floor gets the base or one more, exactly the first `remainder`
   * floors get one more, so the counts never increase from floor to floor
   * and differ by at most one.
   */
  lemma {:induction false} AutoDistributionFair(totalPeople: int, floors: nat)
    requires totalPeople > 0 && floors > 0
    ensures var vs := AutoDistribution(totalPeople, floors);
      && (forall k :: 0 <= k < floors ==>
            vs[k] == (if k < totalPeople % floors then totalPeople / floors + 1 else totalPeople / floors))
      && (forall i, j :: 0 <= i <= j < floors ==> vs[j] <= vs[i] <= vs[j] + 1)
  {
    var base, remainder := totalPeople / floors, totalPeople % floors;
    forall k | 0 <= k < floors
      ensures DistributionPrefix(base, remainder, floors)[k] == if k < remainder then base + 1 else base
    {
      DistributionPrefixAt(base, remainder, floors, k);
    }
  }

  /** With 11 people on 5 floors, the first floor gets 3 and the others 2. */
  lemma {:induction false} AutoDistributionExample()
    ensures AutoDistribution(11, 5) == [3, 2, 2, 2, 2]
  {
    assert 11 / 5 == 2 && 11 % 5 == 1;
  }

  /** The form values after writing `vs[i - 1]` into `floor<i>` for `i` from 1 up to `|vs|`. */
  function WithFloorValues(values: map<string, int>, vs: seq<int>): map<string, int> {
    if vs == [] then values
    else WithFloorValues(values, vs[..|vs| - 1])[FloorKey(|vs|) := vs[|vs| - 1]]
  }

  /** One more turn of the loop writes the next floor's count. */
  lemma {:induction false} DistributionStep(values: map<string, int>, base: int, remainder: int, i: nat)
    ensures WithFloorValues(values, DistributionPrefix(base, remainder, i + 1))
         == WithFloorValues(values, DistributionPrefix(base, remainder, i))[FloorKey(i + 1) := if i < remainder then base + 1 else base]
  {
    assert DistributionPrefix(base, remainder, i + 1)[..i] == DistributionPrefix(base, remainder, i);
  }

  /** Reading floor `j` back after the writes gives `vs[j - 1]`. */
  lemma {:induction false} WithFloorValuesAt(values: map<string, int>, vs: seq<int>, j: nat)
    requires 1 <= j <= |vs|
    ensures FloorKey(j) in WithFloorValues(values, vs)
    ensures WithFloorValues(values, vs)[FloorKey(j)] == vs[j - 1]
  {
    if j < |vs| {
      FloorKeyInjective(j, |vs|);
      WithFloorValuesAt(values, vs[..|vs| - 1], j);
    }
  }

  /** A field that is not among `floor1..floor<|vs|>` is left as it was. */
  lemma {:induction false} WithFloorValuesOther(values: map<string, int>, vs: seq<int>, key: string)
    requires forall j {:trigger FloorKey(j)} :: 1 <= j <= |vs| ==> key != FloorKey(j)
    ensures FieldNumber(WithFloorValues(values, vs), key) == FieldNumber(values, key)
  {
    if vs != [] {
      WithFloorValuesOther(values, vs[..|vs| - 1], key);
    }
  }

  /** After the writes the first `|vs|` floors show `vs`. */
  lemma {:induction false} FloorValuesAfterWrites(values: map<string, int>, vs: seq<int>, n: nat)
    requires n <= |vs|
    ensures FloorValues(WithFloorValues(values, vs), n) == vs[..n]
  {
    if n > 0 {
      FloorValuesAfterWrites(values, vs, n - 1);
      WithFloorValuesAt(values, vs, n);
      assert vs[..n] == vs[..n - 1] + [vs[n - 1]];
    }
  }

  /** After the automatic distribution the floors add up to `totalPeople`: nothing remains. */
  lemma {:induction false} AutoDistributionBalances(values: map<string, int>, totalPeople: int, floors: nat)
    requires totalPeople > 0 && floors > 0
    ensures CurrentTotal(WithFloorValues(values, AutoDistribution(totalPeople, floors)), floors) == totalPeople
  {
    var vs := AutoDistribution(totalPeople, floors);
    FloorValuesAfterWrites(values, vs, floors);
    assert vs[..floors] == vs;
    AutoDistributionSum(totalPeople, floors);
  }

  // ---------------------------------------------------------------------------
  // onSubmit
  // ---------------------------------------------------------------------------

  /** The `floorPeople` record `onSubmit` builds for floors `1..n`, in key order. */
  function FloorEntries(values: map<string, int>, n: nat): (fs: seq<FloorEntry>)
    ensures |fs| == n
  {
    if n == 0 then [] else FloorEntries(values, n - 1) + [FloorEntry(FloorKey(n), FieldOrZero(values, FloorKey(n)))]
  }

  /** The record `onSubmit` saves; `now` stands for the clock's ISO timestamp. */
  function SubmittedData(values: map<string, int>, n: nat, now: string): SplitBillData {
    var fs := FloorEntries(values, n);
    SplitBillData(FieldNumber(values, "floors"), FieldNumber(values, "totalPeople"), fs, TotalPeople(fs), now)
  }

  /**
   * The record holds exactly the keys `floor1..floor<n>`, in increasing order,
   * each with the floor's count (0 when empty), and no key twice.
   */
  lemma {:induction false} FloorEntriesShape(values: map<string, int>, n: nat)
    ensures var fs := FloorEntries(values, n);
      && (forall k :: 0 <= k < n ==> fs[k] == FloorEntry(FloorKey(k + 1), FieldOrZero(values, FloorKey(k + 1))))
      && (forall i, j :: 0 <= i < j < n ==> fs[i].name != fs[j].name)
  {
    var fs := FloorEntries(values, n);
    forall k | 0 <= k < n
      ensures fs[k] == FloorEntry(FloorKey(k + 1), FieldOrZero(values, FloorKey(k + 1)))
    {
      FloorEntriesAt(values, n, k);
    }
    forall i, j | 0 <= i < j < n
      ensures fs[i].name != fs[j].name
    {
      FloorKeyInjective(i + 1, j + 1);
    }
  }

  lemma {:induction false} FloorEntriesAt(values: map<string, int>, n: nat, k: nat)
    requires k < n
    ensures FloorEntries(values, n)[k] == FloorEntry(FloorKey(k + 1), FieldOrZero(values, FloorKey(k + 1)))
  {
    if k < n - 1 {
      FloorEntriesAt(values, n - 1, k);
    }
  }

  /** The saved `totalAmount` is the people total the form showed, not an amount of money. */
  lemma {:induction false} SubmittedTotalIsCurrentTotal(values: map<string, int>, n: nat)
    ensures TotalPeople(FloorEntries(values, n)) == CurrentTotal(values, n)
  {
    if n > 0 {
      SubmittedTotalIsCurrentTotal(values, n - 1);
      var fs := FloorEntries(values, n);
      assert fs[..n - 1] == FloorEntries(values, n - 1);
      assert FloorValues(values, n)[..n - 1] == FloorValues(values, n - 1);
    }
  }

  // ---------------------------------------------------------------------------
  // The component
  // ---------------------------------------------------------------------------

  /** The state of the `SplitForm` component and the values of its form. */
  class Form {
    /** 0 for the configuration step, 1 for the distribution step. */
    var step: int
    var floors: int
    var totalPeople: int
    var values: map<string, int>

    ghost predicate Valid()
      reads this
    {
      step == 0 || step == 1
    }

    /** `floorArray.length`: `Array.from({ length: floors })` is empty for a non-positive count. */
    function FloorCount(): nat
      reads this
    {
      if floors > 0 then floors else 0
    }

    /** `difference`: the people still to be placed on a floor. */
    function Difference(): int
      reads this
    {
      totalPeople - CurrentTotal(values, FloorCount())
    }

    /** The "Finalizar y Guardar" button is disabled on step 1 while people remain unplaced. */
    predicate NextDisabled()
      reads this
    {
      step == 1 && Difference() != 0
    }

    /** The two state counts have never been clamped to anything below 1. */
    predicate CountsPositive()
      reads this
    {
      floors >= 1 && totalPeople >= 1
    }

    /** The form as mounted: step 0, one floor, one person. */
    constructor ()
      ensures Valid() && step == 0 && floors == 1 && totalPeople == 1
      ensures values == map["floors" := 1, "totalPeople" := 1]
      ensures CountsPositive()
    {
      step := 0;
      floors := 1;
      totalPeople := 1;
      values := map["floors" := 1, "totalPeople" := 1];
    }

    /** Typing into `floors` (shown on step 0); the watching effect then updates the state count. */
    method InputFloors(v: Option<int>)
      requires Valid() && step == 0
      modifies this`values, this`floors
      ensures Valid()
      ensures values == SetField(old(values), "floors", v)
      ensures floors == Clamped(old(floors), v)
      ensures old(CountsPositive()) ==> CountsPositive()
    {
      values := SetField(values, "floors", v);
      floors := Clamped(floors, v);
      if old(CountsPositive()) {
        ClampedStaysPositive(old(floors), v);
      }
    }

    /** Typing into `totalPeople` (shown on step 0); the watching effect then updates the state count. */
    method InputTotalPeople(v: Option<int>)
      requires Valid() && step == 0
      modifies this`values, this`totalPeople
      ensures Valid()
      ensures values == SetField(old(values), "totalPeople", v)
      ensures totalPeople == Clamped(old(totalPeople), v)
      ensures old(CountsPositive()) ==> CountsPositive()
    {
      values := SetField(values, "totalPeople", v);
      totalPeople := Clamped(totalPeople, v);
      if old(CountsPositive()) {
        ClampedStaysPositive(old(totalPeople), v);
      }
    }

    /** Typing into the field of floor `i` (shown on step 1). */
    method InputFloor(i: nat, v: Option<int>)
      requires Valid() && step == 1
      modifies this`values
      ensures Valid()
      ensures values == SetField(old(values), FloorKey(i), v)
    {
      values := SetField(values, FloorKey(i), v);
    }

    /**
     * `autoDistribute`: with positive counts, writes the automatic distribution
     * into `floor1..floor<floors>`, after which nothing remains to be placed;
     * otherwise does nothing.
     */
    method AutoDistribute()
      requires Valid() && step == 1
      modifies this`values
      ensures Valid()
      ensures totalPeople <= 0 || floors <= 0 ==> values == old(values)
      ensures totalPeople > 0 && floors > 0 ==>
        values == WithFloorValues(old(values), AutoDistribution(totalPeople, floors))
      ensures totalPeople > 0 && floors > 0 ==> Difference() == 0
      ensures FieldNumber(values, "floors") == FieldNumber(old(values), "floors")
      ensures FieldNumber(values, "totalPeople") == FieldNumber(old(values), "totalPeople")
    {
      if totalPeople <= 0 || floors <= 0 {
        return;
      }
      var baseAmount := totalPeople / floors;
      var remainder := totalPeople % floors;
      var index := 0;
      while index < floors
        invariant 0 <= index <= floors
        invariant values == WithFloorValues(old(values), DistributionPrefix(baseAmount, remainder, index))
      {
        var peopleForFloor := baseAmount;
        if index < remainder {
          peopleForFloor := peopleForFloor + 1;
        }
        DistributionStep(old(values), baseAmount, remainder, index);
        values := values[FloorKey(index + 1) := peopleForFloor];
        index := index + 1;
      }
      assert values == WithFloorValues(old(values), AutoDistribution(totalPeople, floors));
      forall j | 1 <= j <= floors
        ensures FloorKey(j) != "floors" && FloorKey(j) != "totalPeople"
      {
        FloorKeyNotConfigField(j);
      }
      WithFloorValuesOther(old(values), AutoDistribution(totalPeople, floors), "floors");
      WithFloorValuesOther(old(values), AutoDistribution(totalPeople, floors), "totalPeople");
      AutoDistributionBalances(old(values), totalPeople, floors);
      assert FloorCount() == floors;
    }

    /** `calculateCurrentTotal`: the counts of the floors on screen, empty ones as 0. */
    method CalculateCurrentTotal() returns (total: int)
      ensures total == CurrentTotal(values, FloorCount())
    {
      total := 0;
      var floor := 1;
      while floor <= FloorCount()
        invariant 1 <= floor <= FloorCount() + 1
        invariant total == CurrentTotal(values, floor - 1)
      {
        var value := FieldOrZero(values, FloorKey(floor));
        total := total + value;
        floor := floor + 1;
      }
    }

    /** `onSubmit`: builds the record to save from the form values and the floors on screen. */
    method OnSubmit(now: string) returns (data: SplitBillData)
      ensures data == SubmittedData(values, FloorCount(), now)
      ensures data.totalAmount == CurrentTotal(values, FloorCount())
    {
      var floorPeople: seq<FloorEntry> := [];
      var totalAmount := 0;
      var floor := 1;
      while floor <= FloorCount()
        invariant 1 <= floor <= FloorCount() + 1
        invariant floorPeople == FloorEntries(values, floor - 1)
        invariant totalAmount == TotalPeople(floorPeople)
      {
        var floorKey := FloorKey(floor);
        var value := FieldOrZero(values, floorKey);
        assert (floorPeople + [FloorEntry(floorKey, value)])[..floor - 1] == floorPeople;
        floorPeople := floorPeople + [FloorEntry(floorKey, value)];
        totalAmount := totalAmount + value;
        floor := floor + 1;
      }
      data := SplitBillData(FieldNumber(values, "floors"), FieldNumber(values, "totalPeople"),
                            floorPeople, totalAmount, now);
      SubmittedTotalIsCurrentTotal(values, FloorCount());
    }

    /**
     * `nextStep`: on step 0 moves to step 1 if the configuration validates; on
     * step 1 saves the record (returned here) if every field validates.
     */
    method NextStep(now: string) returns (saved: Option<SplitBillData>)
      requires Valid()
      modifies this`step
      ensures Valid()
      ensures old(step) == 0 ==> saved.None? && step == (if ConfigFieldsValid(values) then 1 else 0)
      ensures old(step) == 1 ==> step == 1
      ensures old(step) == 1 ==>
        saved == (if AllFieldsValid(values, FloorCount()) then Some(SubmittedData(values, FloorCount(), now)) else None)
    {
      saved := None;
      if step == 0 {
        if ConfigFieldsValid(values) {
          step := 1;
        }
      } else if AllFieldsValid(values, FloorCount()) {
        var data := OnSubmit(now);
        saved := Some(data);
      }
    }

    /**
     * A click on the next button: nothing while it is disabled, `nextStep`
     * otherwise. A record is saved only when all fields validate and the
     * floors add up to `totalPeople`.
     */
    method ClickNext(now: string) returns (saved: Option<SplitBillData>)
      requires Valid()
      modifies this`step
      ensures Valid()
      ensures old(NextDisabled()) ==> saved.None? && step == old(step)
      ensures !old(NextDisabled()) && old(step) == 0 ==>
        saved.None? && step == (if ConfigFieldsValid(values) then 1 else 0)
      ensures !old(NextDisabled()) && old(step) == 1 ==> step == 1
      ensures !old(NextDisabled()) && old(step) == 1 ==>
        saved == (if AllFieldsValid(values, FloorCount()) then Some(SubmittedData(values, FloorCount(), now)) else None)
      ensures saved.Some? ==> old(step) == 1 && step == 1 && old(Difference()) == 0
      ensures saved.Some? ==> AllFieldsValid(values, FloorCount())
      ensures saved.Some? ==> saved.value.totalAmount == totalPeople
    {
      if NextDisabled() {
        saved := None;
      } else {
        saved := NextStep(now);
        if saved.Some? {
          SubmittedTotalIsCurrentTotal(values, FloorCount());
        }
      }
    }

    /** `prevStep`, behind the back button shown after step 0: back to the configuration step. */
    method PrevStep()
      requires Valid() && step == 1
      modifies this`step
      ensures Valid() && step == 0
    {
      step := 0;
    }
  }

  /**
   * A record saved by a click on the enabled button feeds a split that is
   * never empty for a positive amount: its floors add up to the positive
   * people count the form showed.
   */
  lemma {:induction false} SavedConfigurationSplits(values: map<string, int>, n: nat, totalPeople: int,
                                                    now: string, amount: real, m: CalculationMethod)
    requires totalPeople >= 1 && CurrentTotal(values, n) == totalPeople && amount > 0.0
    ensures Split(Some(amount), SubmittedData(values, n, now).floorPeople, m) != []
  {
    SubmittedTotalIsCurrentTotal(values, n);
    SplitEmptyIff(Some(amount), FloorEntries(values, n), m);
  }
}
