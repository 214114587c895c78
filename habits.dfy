/** The in-memory habit collection of the tracker: its records, the lookups
    over it and the pure rebuilds that the mutations use. */
module Habits {

  datatype Option<T> = None | Some(value: T)

  /** One logged occurrence of a habit; its position in `days` is its only identity. */
  datatype Day = Day(comment: string)

  /** A tracked habit. `target` is the goal count and may be zero or negative. */
  datatype Habit = Habit(id: int, name: string, target: int, icon: string, days: seq<Day>)

  /** No two habits of the collection share an id. */
  predicate UniqueIds(hs: seq<Habit>) {
    forall i, j :: 0 <= i < j < |hs| ==> hs[i].id != hs[j].id
  }

  /** Position of the first habit whose id is `id` (the array `find`). */
  function Find(hs: seq<Habit>, id: int): (r: Option<nat>)
    ensures r.Some? ==> r.value < |hs| && hs[r.value].id == id
    ensures r.Some? ==> forall j :: 0 <= j < r.value ==> hs[j].id != id
    ensures r.None? <==> forall j :: 0 <= j < |hs| ==> hs[j].id != id
  {
    if |hs| == 0 then None
    else if hs[0].id == id then Some(0)
    else match Find(hs[1..], id)
      case None => None
      case Some(k) => Some(k + 1)
  }

  /** The first habit whose id is `id`, if there is one. */
  function Lookup(hs: seq<Habit>, id: int): (r: Option<Habit>)
    ensures r.Some? <==> exists j :: 0 <= j < |hs| && hs[j].id == id
    ensures r.Some? ==> exists k :: 0 <= k < |hs| && r.value == hs[k] && hs[k].id == id && forall j :: 0 <= j < k ==> hs[j].id != id
  {
    match Find(hs, id)
    case None => None
    case Some(k) => Some(hs[k])
  }

  /** The fold `acc > id ? acc : id` over the collection, left to right, from `acc`. */
  function MaxIdFrom(acc: int, hs: seq<Habit>): (m: int)
    ensures acc <= m
    ensures forall i :: 0 <= i < |hs| ==> hs[i].id <= m
    ensures m == acc || exists i :: 0 <= i < |hs| && hs[i].id == m
    decreases |hs|
  {
    if |hs| == 0 then acc
    else
      var m := MaxIdFrom(if acc > hs[0].id then acc else hs[0].id, hs[1..]);
      assert m != acc && m != hs[0].id ==> exists i :: 0 <= i < |hs[1..]| && hs[1..][i].id == m;
      m
  }

  /** The id a new habit receives: one more than the largest id, counting from 0. */
  function NextId(hs: seq<Habit>): (n: int)
    ensures n >= 1
    ensures forall i :: 0 <= i < |hs| ==> hs[i].id < n
    ensures n == 1 || exists i :: 0 <= i < |hs| && hs[i].id == n - 1
  {
    MaxIdFrom(0, hs) + 1
  }

  /** The habit appended by `addHabbit`: the next id and no days yet. */
  function NewHabit(hs: seq<Habit>, name: string, target: int, icon: string): Habit {
    Habit(NextId(hs), name, target, icon, [])
  }

  /** Appending a habit with the next id keeps the ids unique. */
  lemma NewHabitKeepsIdsUnique(hs: seq<Habit>, name: string, target: int, icon: string)
    requires UniqueIds(hs)
    ensures UniqueIds(hs + [NewHabit(hs, name, target, icon)])
    ensures forall i :: 0 <= i < |hs| ==> hs[i].id != NewHabit(hs, name, target, icon).id
  {
    var hs' := hs + [NewHabit(hs, name, target, icon)];
    forall i, j | 0 <= i < j < |hs'| ensures hs'[i].id != hs'[j].id {
      if j == |hs| {
        assert hs'[i] == hs[i];
      } else {
        assert hs'[i] == hs[i] && hs'[j] == hs[j];
      }
    }
  }

  /** The worked cases: ids 1, 3 and 5 give 6; an empty collection gives 1. */
  lemma NextIdExamples(a: Habit, b: Habit, c: Habit)
    requires a.id == 1 && b.id == 3 && c.id == 5
    ensures NextId([a, b, c]) == 6 && NextId([]) == 1
  {
    var hs := [a, b, c];
    assert hs[1..] == [b, c] && [b, c][1..] == [c] && [c][1..] == [];
    assert MaxIdFrom(5, []) == 5;
    assert MaxIdFrom(3, [c]) == 5;
    assert MaxIdFrom(1, [b, c]) == 5;
    assert MaxIdFrom(0, hs) == 5;
    assert MaxIdFrom(0, []) == 0;
  }

  /** The `addDays` rebuild of the collection: length and order are kept, every habit whose
      id is the active id gets `Day(comment)` as its last day, and every other habit is
      left as it was. */
  function AddDays(hs: seq<Habit>, active: Option<int>, comment: string): (r: seq<Habit>)
    ensures |r| == |hs|
    ensures forall i :: 0 <= i < |hs| ==>
      r[i] == if active == Some(hs[i].id) then hs[i].(days := hs[i].days + [Day(comment)]) else hs[i]
  {
    if |hs| == 0 then []
    else
      var h := if active == Some(hs[0].id) then hs[0].(days := hs[0].days + [Day(comment)]) else hs[0];
      var rest := AddDays(hs[1..], active, comment);
      assert forall i :: 1 <= i < |hs| ==> ([h] + rest)[i] == rest[i - 1] && hs[1..][i - 1] == hs[i];
      [h] + rest
  }

  /** `addDays` changes no id, so unique ids stay unique. */
  lemma AddDaysKeepsIds(hs: seq<Habit>, active: Option<int>, comment: string)
    ensures |AddDays(hs, active, comment)| == |hs|
    ensures forall i :: 0 <= i < |hs| ==> AddDays(hs, active, comment)[i].id == hs[i].id
    ensures UniqueIds(hs) ==> UniqueIds(AddDays(hs, active, comment))
  {
  }

  /** With no active id, or no habit carrying it, `addDays` leaves the collection as it was. */
  lemma AddDaysWithoutMatch(hs: seq<Habit>, active: Option<int>, comment: string)
    requires active.None? || Find(hs, active.value).None?
    ensures AddDays(hs, active, comment) == hs
  {
  }

  /** `splice(index, 1)` on a list of days, for a non-negative index: it removes exactly the
      day at `index` and shifts the later days down by one; an index at or past the end
      removes nothing. */
  function Splice(days: seq<Day>, index: nat): (r: seq<Day>)
    ensures index < |days| ==> |r| == |days| - 1
    ensures index < |days| ==> forall j :: 0 <= j < index ==> r[j] == days[j]
    ensures index < |days| ==> forall j :: index <= j < |days| - 1 ==> r[j] == days[j + 1]
    ensures index >= |days| ==> r == days
  {
    if index < |days| then days[..index] + days[index + 1..] else days
  }

  /** Putting the removed day back at `index` restores the list. */
  lemma SpliceReinsert(days: seq<Day>, index: nat)
    requires index < |days|
    ensures Splice(days, index)[..index] + [days[index]] + Splice(days, index)[index..] == days
  {
    var r := Splice(days, index);
    assert r[..index] == days[..index];
    assert r[index..] == days[index + 1..];
    assert days == days[..index] + [days[index]] + days[index + 1..];
  }

  /** `deleteDay(index)`: only the first habit whose id is the active id has its days
      spliced; the length, the order and every other habit stay as they were. */
  function DeleteDayAt(hs: seq<Habit>, active: Option<int>, index: nat): (r: seq<Habit>)
    ensures |r| == |hs|
    ensures forall i :: 0 <= i < |hs| ==>
      r[i] == if active == Some(hs[i].id) && (forall j :: 0 <= j < i ==> hs[j].id != hs[i].id)
              then hs[i].(days := Splice(hs[i].days, index)) else hs[i]
  {
    if active.None? then hs
    else match Find(hs, active.value)
      case None => hs
      case Some(k) => hs[k := hs[k].(days := Splice(hs[k].days, index))]
  }

  /** `deleteDay` changes no id, so unique ids stay unique. */
  lemma DeleteDayKeepsIds(hs: seq<Habit>, active: Option<int>, index: nat)
    ensures forall i :: 0 <= i < |hs| ==> DeleteDayAt(hs, active, index)[i].id == hs[i].id
    ensures UniqueIds(hs) ==> UniqueIds(DeleteDayAt(hs, active, index))
  {
  }

  /** Deleting past the end of the active habit's days, or with no active habit,
      leaves the collection as it was. */
  lemma DeleteDayWithoutEffect(hs: seq<Habit>, active: Option<int>, index: nat)
    requires active.None? || Find(hs, active.value).None?
      || index >= |hs[Find(hs, active.value).value].days|
    ensures DeleteDayAt(hs, active, index) == hs
  {
  }
}
