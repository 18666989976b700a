/**
 * The configuration record the distribution form saves and the split page
 * reads back (`SplitBillData` in both app/split-form/page.tsx and
 * app/split/page.tsx), with the `floorN` keys of its `floorPeople` record.
 */
module BillData {
  import opened Wrappers
  import opened Numerals

  /** One `floorName -> peopleCount` entry of `floorPeople`, in insertion order. */
  datatype FloorEntry = FloorEntry(name: string, people: int)

  /**
   * The saved configuration. `floors` and `totalPeople` are `Number(...)` of
   * the form fields, `None` standing for `NaN`; `totalAmount` is, as in the
   * source, the sum of the per-floor people counts and not a sum of money.
   */
  datatype SplitBillData = SplitBillData(
    floors: Option<int>,
    totalPeople: Option<int>,
    floorPeople: seq<FloorEntry>,
    totalAmount: int,
    createdAt: string)

  /** The form field and record key of the floor numbered `i` (counting from 1). */
  function FloorKey(i: nat): (k: string)
    ensures |k| > 5 && k[..5] == "floor" && IsDigit(k[5])
  {
    "floor" + NatToString(i)
  }

  /** Distinct floors have distinct keys. */
  lemma {:induction false} FloorKeyInjective(i: nat, j: nat)
    ensures FloorKey(i) == FloorKey(j) <==> i == j
  {
    if FloorKey(i) == FloorKey(j) {
      assert NatToString(i) == FloorKey(i)[5..];
      assert NatToString(j) == FloorKey(j)[5..];
      NatToStringInjective(i, j);
    }
  }

  /** No floor key collides with the two configuration fields of the form. */
  lemma {:induction false} FloorKeyNotConfigField(i: nat)
    ensures FloorKey(i) != "floors" && FloorKey(i) != "totalPeople"
  {
    assert "floors"[5] == 's';
    assert "totalPeople"[0] == 't';
  }

  /** Sum of the people counts, accumulated left to right as the source's loops do. */
  function TotalPeople(fs: seq<FloorEntry>): int {
    if fs == [] then 0 else TotalPeople(fs[..|fs| - 1]) + fs[|fs| - 1].people
  }

  /** Sum of a list of integers, accumulated left to right. */
  function SumInts(xs: seq<int>): int {
    if xs == [] then 0 else SumInts(xs[..|xs| - 1]) + xs[|xs| - 1]
  }
}
