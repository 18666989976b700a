# splitbill: the bill-splitting core in Dafny

A Dafny model of the arithmetic and bookkeeping behind the splitbill web
app. The app splits a shared bill among the floors of a building.

- **Distribution form** (app/split-form/page.tsx). A two-step wizard:
  - Step 0 asks how many floors there are (1 to 10) and how many people.
  - Step 1 asks for the people on each floor, `floor1` … `floorN`. It can
    distribute them automatically. It shows how many are still to be placed,
    and it saves the configuration only once nothing remains.
- **Split page** (app/split/page.tsx). The amount typed is split among the
  saved floors, per person or equally. Every share is rounded up to a
  multiple of 0.10 soles, and a summary reports the rounded total.
- **Demo counter** (app/page.tsx). The home page lists five demo floors whose
  resident counts the `+`/`-` buttons change, never below one.

## Files

| File | Contents |
|---|---|
| `Wrappers.dfy` | `Option` (`null`, `NaN`, an empty field) |
| `Numerals.dfy` | digit strings: `parseFloat`'s digits and the `${floor}` in field keys |
| `BillData.dfy` | the saved `SplitBillData` record, the `floorN` keys, people totals |
| `SplitPage.dfy` | the amount field, `roundToNearestTenCents`, `calculateSplit`, `calculateSummary` |
| `SplitForm.dfy` | the form values, the clamping effects, validation, `autoDistribute`, `onSubmit`, the class `Form` with the step machine |
| `HomeDemo.dfy` | `updateResidents` on the demo floors |

## Modelling choices

- **Money is exact.** Money is a `real`, so doubles and their rounding errors
  are not modelled. `Math.ceil` is `-((-x).Floor)`.
- **`floorPeople` is a sequence.** It is an ordered sequence of
  `FloorEntry(name, people)` and not a JavaScript object. `Object.entries`
  keeps insertion order for keys like `floor1`, which are never integer-like,
  and the equal method's `floorsCount` is the length of the sequence.
- **Two row fields are derived.** Both branches of `calculateSplit` compute
  `roundedAmount` and `amountPerPerson` from the row's raw amount and people
  count by the same formula. The model therefore stores four fields per row
  and derives those two as members `RoundedAmount()` and `AmountPerPerson()`.
  The equal branch rounds its shared figure once. In the model every row
  carries that same raw amount, so every row has the same rounded figure.
- **The percentage is written differently.** Per person it is stored as
  `(100 / totalPeople) * people`. `SplitPage.PerPersonPercentage` proves this
  equal to the code's `(people / totalPeople) * 100`.
- **Form fields are a map.** The form values are a `map<string, int>`. A
  missing key stands for an empty field (`undefined` or `NaN` under
  `valueAsNumber`), and `Number(x) || 0` reads it as 0.
- **Effects run with their input.** The two watch effects that clamp `floors`
  and `totalPeople` run as part of the input that changes the watched field.
- **`trigger()` is a set of checks.** On step 0 it checks `floors` in 1..10
  and `totalPeople` ≥ 1. On step 1 it also checks every `floor<i>` on screen
  for ≥ 0.

Where the rounding note and the code disagree, the model follows the code.
The note at app/split/page.tsx:784 shows `14.34 → 14.30`, but
`roundToNearestTenCents` is a ceiling (line 75) and gives 14.40, which
`SplitPage.RoundingNoteExamples` proves. The note's other two examples are
rounded up, and 14.30 is rounded to nearest. No single rule fits all three,
so the model keeps the code's ceiling.

## Model

| member | source | states |
|---|---|---|
| SplitPage.AmountPatternIsRegex | app/split/page.tsx:156 | the deterministic reading of the amount pattern accepts exactly the texts matching `^\d*\.?\d{0,2}$` |
| SplitPage.HandleAmountChange | app/split/page.tsx:153-159 | the field takes the new text exactly when it is empty or matches `^\d*\.?\d{0,2}$`, otherwise keeps the old text, and never leaves accepted text |
| SplitPage.AmountAlwaysAccepted | app/split/page.tsx:153-159 | starting from `''`, after any series of edits the amount field holds empty or pattern-matching text |
| SplitPage.ParseAcceptedAmountNaN | app/split/page.tsx:88-90 | an accepted amount text parses to NaN exactly when it contains no digit |
| SplitPage.ParseAcceptedAmountCents | app/split/page.tsx:88-89 | an accepted amount text that parses is a non-negative whole number of cents |
| SplitPage.CentsTextRoundTrip | app/split/page.tsx:153-159 | every whole-cent amount written as `<soles>.<cc>` is accepted by the field and parses back to itself |
| SplitPage.RoundToTenCents | app/split/page.tsx:74-76 | the result is a multiple of 0.10, at least the input, and less than 0.10 above it |
| SplitPage.RoundIsLeastTenCentBound | app/split/page.tsx:74-76 | the result is the least multiple of 0.10 not below the input |
| SplitPage.RoundKeepsTenCentMultiples | app/split/page.tsx:74-76 | a multiple of 0.10 is returned unchanged |
| SplitPage.RoundingNoteExamples | app/split/page.tsx:784 | 15.21 → 15.30 and 25.67 → 25.70 as the note says, but 14.34 → 14.40 and not the note's 14.30 |
| SplitPage.CountPeople | app/split/page.tsx:96-101 | the accumulator loop gives the sum of the people counts |
| SplitPage.PerPersonPercentage | app/split/page.tsx:121 | `(people / totalPeople) * 100` equals `people` units of `100 / totalPeople` |
| SplitPage.PushPerPersonRows | app/split/page.tsx:108-126 | the per-person loop pushes one row per entry, in order, with share `amount / totalPeople × people` |
| SplitPage.PushEqualRows | app/split/page.tsx:127-148 | the equal loop pushes one row per entry, in order, each with `amount / floorsCount` and `100 / floorsCount` |
| SplitPage.CalculateSplit | app/split/page.tsx:88-151 | `calculateSplit` leaves exactly the result list `Split` describes, guards included |
| SplitPage.SplitEmptyIff | app/split/page.tsx:88-106 | the results are empty exactly when the amount is NaN or not positive, or the people add up to 0 |
| SplitPage.SplitShape | app/split/page.tsx:112-147 | otherwise there is one row per entry, in mapping order, copying its name and people count |
| SplitPage.PerPersonShares | app/split/page.tsx:110-123 | per person, every row's raw share is `amount / totalPeople × people` and its percentage `100 / totalPeople × people` |
| SplitPage.PerPersonAmountTotal | app/split/page.tsx:110-117 | per person, the raw shares add up to the amount |
| SplitPage.PerPersonPercentageTotal | app/split/page.tsx:121 | per person, the percentages add up to 100 |
| SplitPage.PerPersonSameRate | app/split/page.tsx:110-124 | per person, every floor with people shows the same per-person figure `amount / totalPeople` |
| SplitPage.EqualShares | app/split/page.tsx:130-143 | equally, every row has the same raw share `amount / floorsCount` (so the same rounded share) and percentage `100 / floorsCount`, and floors without people count |
| SplitPage.EqualAmountTotal | app/split/page.tsx:130-141 | equally, the raw shares add up to the amount |
| SplitPage.EqualPercentageTotal | app/split/page.tsx:142 | equally, the percentages add up to 100 |
| SplitPage.AmountPerPersonZeroIff | app/split/page.tsx:124-144 | with no negative counts, a row's per-person figure is 0 exactly when its floor has no people |
| SplitPage.RowsRoundingSurplus | app/split/page.tsx:179-185 | rounding every row up adds at least nothing and less than 0.10 per row to the total |
| SplitPage.PerPersonExample | app/split/page.tsx:108-126 | 100 among floors of 3 and 2 people gives 60 and 40 (60% and 40%, 20 per person) |
| SplitPage.EqualExample | app/split/page.tsx:127-148 | 100 equally among three floors gives a third each, all rounded to the same 33.40 |
| SplitPage.CalculateSummary | app/split/page.tsx:179-198 | no summary for empty results, and an average of 0 when the people add up to nothing |
| SplitPage.SummaryOfSplit | app/split/page.tsx:179-198 | the summary of a split has the mapping's people, and a total at least the amount and less than 0.10 per floor above it |
| SplitPage.PageResults | app/split/page.tsx:79-86 | with no saved configuration the list is empty; otherwise it is the split of the parsed amount |
| BillData.FloorKey | app/split-form/page.tsx:74 | a floor key is `floor` followed by the floor's number |
| BillData.FloorKeyInjective | app/split-form/page.tsx:73-77 | two floors have the same key exactly when they are the same floor |
| BillData.FloorKeyNotConfigField | app/split-form/page.tsx:19-23 | no floor key is `floors` or `totalPeople` |
| Numerals.DigitsValueOfNatToString | app/split-form/page.tsx:74 | reading back the decimal spelling of a number gives the number |
| SplitForm.FloorValuesAt | app/split-form/page.tsx:135-143 | floor `i` on screen reads field `floor<i>`, with an empty field as 0 |
| SplitForm.Clamped | app/split-form/page.tsx:49-61 | a positive watched value becomes the state, a negative one becomes 1, and an empty field or a 0 leaves the state |
| SplitForm.ClampedStaysPositive | app/split-form/page.tsx:49-61 | a positive state count stays positive whatever is typed |
| SplitForm.ValidFloorsNonNegative | app/split-form/page.tsx:262-266 | when the floor fields validate, every floor count and their total are non-negative |
| SplitForm.AutoDistributionSum | app/split-form/page.tsx:125-132 | the automatic distribution assigns exactly `totalPeople` people |
| SplitForm.AutoDistributionFair | app/split-form/page.tsx:128-131 | every floor gets the base or one more, exactly the first `remainder` get one more, and the counts never increase and differ by at most one |
| SplitForm.AutoDistributionExample | app/split-form/page.tsx:122-133 | 11 people on 5 floors gives 3, 2, 2, 2, 2 |
| SplitForm.WithFloorValuesAt | app/split-form/page.tsx:131 | after the writes, field `floor<j>` holds the value written for floor `j` |
| SplitForm.WithFloorValuesOther | app/split-form/page.tsx:131 | fields other than `floor1..floorN` are not touched |
| SplitForm.AutoDistributionBalances | app/split-form/page.tsx:122-145 | after the automatic distribution the floors on screen add up to `totalPeople`, so nothing remains |
| SplitForm.FloorEntriesShape | app/split-form/page.tsx:73-77 | the saved record has exactly the keys `floor1..floorN`, in increasing order, without repeats, with empty inputs saved as 0 |
| SplitForm.SubmittedTotalIsCurrentTotal | app/split-form/page.tsx:65-79 | the saved `totalAmount` is the people total the form showed |
| SplitForm.SavedConfigurationSplits | app/split-form/page.tsx:289 | a configuration whose floors add up to the positive people count never gives an empty split for a positive amount |
| SplitForm.Form.constructor | app/split-form/page.tsx:27-43 | the form mounts on step 0 with one floor and one person |
| SplitForm.Form.InputFloors | app/split-form/page.tsx:49-54 | typing into `floors`, shown on step 0, stores the value and clamps the state count, keeping it positive |
| SplitForm.Form.InputTotalPeople | app/split-form/page.tsx:56-61 | typing into `totalPeople`, shown on step 0, stores the value and clamps the state count, keeping it positive |
| SplitForm.Form.InputFloor | app/split-form/page.tsx:257-266 | typing into a floor field, shown on step 1, stores its value and changes nothing else |
| SplitForm.Form.AutoDistribute | app/split-form/page.tsx:122-133 | with positive counts the floors get the automatic distribution and the difference becomes 0, leaving `floors` and `totalPeople` as they were; otherwise nothing changes |
| SplitForm.Form.CalculateCurrentTotal | app/split-form/page.tsx:135-143 | the accumulator loop gives the total of the floors on screen |
| SplitForm.Form.OnSubmit | app/split-form/page.tsx:65-83 | the record built holds the floors on screen and their people total as `totalAmount` |
| SplitForm.Form.NextStep | app/split-form/page.tsx:85-98 | step 0 moves on only if the configuration validates; step 1 saves only if every field validates |
| SplitForm.Form.ClickNext | app/split-form/page.tsx:284-290 | a disabled click changes nothing; an enabled click on step 0 moves on exactly when the configuration validates, and on step 1 saves the submitted record exactly when every field validates; a saved record always has nothing left to place |
| SplitForm.Form.PrevStep | app/split-form/page.tsx:100 | the back button, shown on step 1, always lands on step 0 |
| HomeDemo.UpdateResidentsAt | app/page.tsx:22-30 | length, order, ids and names are kept; the floor with the id gets `max(1, residents + change)` and the others keep their count |
| HomeDemo.UpdateResidentsMaps | app/page.tsx:23-29 | each floor of the new list is the callback applied to the floor at the same place |
| HomeDemo.UpdateMissingId | app/page.tsx:24-28 | an id that names no floor leaves the list identical |
| HomeDemo.UpdateKeepsInhabited | app/page.tsx:26 | no update takes a floor below one resident |
| HomeDemo.PressesKeepInhabited | app/page.tsx:14-30 | from the initial floors, any series of presses keeps all five floors at one resident or more |
| HomeDemo.UpdatesCommute | app/page.tsx:22-30 | presses on two different floors give the same list in either order |

## Left out

- Persistence is not modelled: the `localStorage` reads and writes and the `JSON.parse` with its `try`/`catch` (app/split/page.tsx:57-71, app/split-form/page.tsx:81, 103-120). The split page takes the saved configuration as an `Option`, the form returns the record it would save, and the form's restore-on-mount effect is left out.
- The clock is a parameter: `createdAt` is the `now` argument.
- Navigation (`router.push`), React's effect scheduling, the resize listener, the details toggle and the reversed display order are view plumbing.
- `formatCurrency`, `formatCurrencyCompact` and the WhatsApp/clipboard texts are left out. They depend on `Intl.NumberFormat` and browser APIs.
- IEEE-754 doubles are not modelled, because money is exact. On doubles `Math.ceil(x * 10) / 10` can misround, and that is not captured.
- SplitPage.ParseAmount: models `parseFloat` only as a run of digits followed by an optional dot and digits. Signs, exponents, whitespace and `Infinity` are not modelled, because the amount field only ever holds text made of digits and at most one dot (SplitPage.AmountAlwaysAccepted).
- People counts are integers. The `parseInt(...) || 0` in `calculateSplit` truncates a fractional count from storage, and that is not modelled.
- Form inputs are whole numbers. A fractional number in a form field is not modelled.
- SplitForm.Form.NextStep: `trigger()` is modelled as checking `floors`, `totalPeople` and the floor fields now on screen. The form library's handling of fields registered earlier and now off screen is not modelled.
- Theming, authentication (Clerk), the layouts and the presentational components hold no logic of the core.

## Findings

None. The rounding note's `14.34 → 14.30` is described above. It is a wrong example in the page text, not a wrong computation, and no single rounding rule fits all three of the note's examples, so there is no corrected definition to give.
