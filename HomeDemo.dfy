/**
 * The resident counter of the home page demo (app/page.tsx): a list of floors
 * whose resident counts the `+` and `-` buttons change through
 * `updateResidents`, never below one resident.
 */
module HomeDemo {

  datatype Floor = Floor(id: int, name: string, residents: int)

  /** The five demo floors the page starts with. */
  const InitialFloors: seq<Floor> := [
    Floor(1, "Piso 1", 3),
    Floor(2, "Piso 2", 2),
    Floor(3, "Piso 3", 4),
    Floor(4, "Piso 4", 1),
    Floor(5, "Piso 5", 2)
  ]

  function Max(a: int, b: int): int {
    if a >= b then a else b
  }

  /** The `map` callback: the floor with the given id gets its count changed, at least 1. */
  function UpdateFloor(floor: Floor, id: int, change: int): Floor {
    if floor.id == id then floor.(residents := Max(1, floor.residents + change)) else floor
  }

  /** `updateResidents(id, change)`: a new list with the callback applied to every floor. */
  function UpdateResidents(floors: seq<Floor>, id: int, change: int): seq<Floor> {
    if floors == [] then [] else [UpdateFloor(floors[0], id, change)] + UpdateResidents(floors[1..], id, change)
  }

  /**
   * The list keeps its length and order; every floor keeps its id and name;
   * the floor with the id gets `max(1, residents + change)` and every other
   * floor keeps its count.
   */
  lemma {:induction false} UpdateResidentsAt(floors: seq<Floor>, id: int, change: int, k: nat)
    requires k < |floors|
    ensures |UpdateResidents(floors, id, change)| == |floors|
    ensures var r := UpdateResidents(floors, id, change)[k];
      && r.id == floors[k].id && r.name == floors[k].name
      && r.residents == (if floors[k].id == id then Max(1, floors[k].residents + change) else floors[k].residents)
  {
    UpdateResidentsMaps(floors, id, change);
  }

  /** Every floor of the result is the callback applied to the floor at the same place. */
  lemma {:induction false} UpdateResidentsMaps(floors: seq<Floor>, id: int, change: int)
    ensures |UpdateResidents(floors, id, change)| == |floors|
    ensures forall k :: 0 <= k < |floors| ==> UpdateResidents(floors, id, change)[k] == UpdateFloor(floors[k], id, change)
  {
    if floors != [] {
      UpdateResidentsMaps(floors[1..], id, change);
    }
  }

  /** An id that names no floor leaves the list as it is. */
  lemma {:induction false} UpdateMissingId(floors: seq<Floor>, id: int, change: int)
    requires forall k :: 0 <= k < |floors| ==> floors[k].id != id
    ensures UpdateResidents(floors, id, change) == floors
  {
    if floors != [] {
      UpdateMissingId(floors[1..], id, change);
    }
  }

  predicate AllInhabited(floors: seq<Floor>) {
    forall k :: 0 <= k < |floors| ==> floors[k].residents >= 1
  }

  /** No update takes a floor below one resident. */
  lemma {:induction false} UpdateKeepsInhabited(floors: seq<Floor>, id: int, change: int)
    requires AllInhabited(floors)
    ensures AllInhabited(UpdateResidents(floors, id, change))
  {
    UpdateResidentsMaps(floors, id, change);
  }

  /** The demo state after a series of button presses, each an `(id, change)` pair. */
  function AfterPresses(presses: seq<(int, int)>): seq<Floor> {
    if presses == [] then InitialFloors
    else UpdateResidents(AfterPresses(presses[..|presses| - 1]), presses[|presses| - 1].0, presses[|presses| - 1].1)
  }

  /** However the buttons are pressed, every demo floor keeps at least one resident. */
  lemma {:induction false} PressesKeepInhabited(presses: seq<(int, int)>)
    ensures |AfterPresses(presses)| == 5
    ensures AllInhabited(AfterPresses(presses))
  {
    if presses != [] {
      var before := AfterPresses(presses[..|presses| - 1]);
      PressesKeepInhabited(presses[..|presses| - 1]);
      UpdateKeepsInhabited(before, presses[|presses| - 1].0, presses[|presses| - 1].1);
      UpdateResidentsMaps(before, presses[|presses| - 1].0, presses[|presses| - 1].1);
    }
  }

  /** Presses on two different floors give the same list in either order. */
  lemma {:induction false} UpdatesCommute(floors: seq<Floor>, a: int, c: int, b: int, d: int)
    requires a != b
    ensures UpdateResidents(UpdateResidents(floors, a, c), b, d) == UpdateResidents(UpdateResidents(floors, b, d), a, c)
  {
    if floors != [] {
      UpdatesCommute(floors[1..], a, c, b, d);
    }
  }
}
