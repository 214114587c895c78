/** The page's application state and the handlers that change it: the collection, the
    active id, the stored blob and the error marks of the two forms. */
module Tracker {
  import opened Habits
  import opened Header
  import opened Forms
  import opened Startup

  /** What a render derives for the active habit: the habit itself and its progress. */
  datatype Screen = Screen(habit: Habit, progress: real)

  /** The required fields of the add-day form and of the add-habit form. */
  const DayFields: seq<string> := ["comment"]
  const HabitFields: seq<string> := ["name", "icon", "target"]

  /** The list a reload reads back from storage; no blob reads as the empty list. */
  function StoredList(storage: Option<seq<Habit>>): seq<Habit> {
    if storage.Some? then storage.value else []
  }

  /** Saving a non-empty collection and loading again restores it, whatever the snapshot fetch gives. */
  lemma ReloadRestores(hs: seq<Habit>, fetched: Fetch)
    requires |hs| > 0
    ensures Load(Some(hs), fetched) == Loaded(hs, false)
  {
  }

  class Tracker {
    /** The collection (`habbits`). */
    var habits: seq<Habit>
    /** The active id (`globalActiveHabbitId`); None while it is undefined. */
    var activeId: Option<int>
    /** The blob under the storage key, as the list it parses to; None while there is none. */
    var storage: Option<seq<Habit>>
    /** The form fields that carry the error mark. */
    var marked: set<string>

    /** Storage mirrors the collection: when the collection is non-empty, a reload reads back
        exactly what is in memory (an empty stored list sends a reload to the snapshot again). */
    ghost predicate Saved()
      reads this
    {
      habits == StoredList(storage)
    }

    /** The startup block: load, then render the habit named by the URL fragment or the first one.
        `fragment` is the fragment text converted by `Number`: an absent or empty fragment
        converts to 0 and arrives as Some(0); None stands for a text whose `Number` is not an
        integer (NaN, 1.5, Infinity), which equals no id. */
    constructor Start(stored: Option<seq<Habit>>, fetched: Fetch, fragment: Option<int>)
      ensures Saved()
      ensures habits == Load(stored, fetched).habits
      ensures storage == if Load(stored, fetched).persist then Some(habits) else stored
      ensures activeId == InitialSelection(habits, fragment)
      ensures marked == {}
    {
      var loaded := Load(stored, fetched);
      habits := loaded.habits;
      storage := if loaded.persist then Some(loaded.habits) else stored;
      activeId := None;
      marked := {};
      new;
      // the startup choice step by step as the program makes it; the ensures ties it to `InitialSelection`
      if |habits| > 0 {
        var found := if fragment.Some? then Find(habits, fragment.value) else None;
        var id := if found.Some? then habits[found.value].id else habits[0].id;
        var view := Select(id);
      }
    }

    /** `rerender(id)`: records `id` as active and, when a habit has it, derives what is shown. */
    method Select(id: int) returns (view: Option<Screen>)
      modifies this
      ensures activeId == Some(id)
      ensures habits == old(habits) && storage == old(storage) && marked == old(marked)
      ensures view.None? <==> forall i :: 0 <= i < |habits| ==> habits[i].id != id
      ensures view.Some? ==> Lookup(habits, id) == Some(view.value.habit)
      ensures view.Some? ==> view.value.progress == Progress(|view.value.habit.days|, view.value.habit.target)
      ensures view.Some? ==> 0.0 <= view.value.progress <= 100.0
    {
      activeId := Some(id);
      var found := Find(habits, id);
      if found.None? {
        return None;
      }
      var h := habits[found.value];
      // the progress expression as the handler writes it; the ensures ties it to `Progress`
      var progress := if h.target <= 0 then 0.0 else (|h.days| as real / h.target as real) * 100.0;
      var finalProgress := if progress > 100.0 then 100.0 else progress;
      view := Some(Screen(h, finalProgress));
    }

    /** `addDays`: on a valid submission append the comment to the active habit, save and re-render. */
    method SubmitDay(form: map<string, string>)
      requires Saved()
      modifies this
      ensures Saved()
      ensures MarkedAfter(old(marked), form, DayFields, marked)
      ensures activeId == old(activeId)
      ensures Filled(form, "comment") ==>
        habits == AddDays(old(habits), activeId, form["comment"]) && storage == Some(habits)
      ensures !Filled(form, "comment") ==> habits == old(habits) && storage == old(storage)
      ensures UniqueIds(old(habits)) ==> UniqueIds(habits)
    {
      var data, marks := Validate(form, DayFields, marked);
      marked := marks;
      if data.None? {
        return;
      }
      AddDaysKeepsIds(habits, activeId, data.value["comment"]);
      habits := AddDays(habits, activeId, data.value["comment"]);
      storage := Some(habits);
      if activeId.Some? {
        var view := Select(activeId.value);
      }
    }

    /** `addHabbit`: on a valid submission append a habit with the next id and no days, save and
        render it. `toNumber` is the conversion the program applies to the target field. */
    method SubmitHabit(form: map<string, string>, toNumber: string -> int) returns (newId: Option<int>)
      requires Saved()
      modifies this
      ensures Saved()
      ensures MarkedAfter(old(marked), form, HabitFields, marked)
      ensures newId.Some? <==> forall f :: f in HabitFields ==> Filled(form, f)
      ensures newId.None? ==> habits == old(habits) && storage == old(storage) && activeId == old(activeId)
      ensures newId.Some? ==> newId.value == NextId(old(habits))
      ensures newId.Some? ==> "name" in form && "icon" in form && "target" in form
      ensures newId.Some? ==>
        habits == old(habits) + [NewHabit(old(habits), form["name"], toNumber(form["target"]), form["icon"])]
      ensures newId.Some? ==> storage == Some(habits) && activeId == newId
      ensures newId.Some? ==> forall i :: 0 <= i < |old(habits)| ==> old(habits)[i].id != newId.value
      ensures UniqueIds(old(habits)) ==> UniqueIds(habits)
    {
      var data, marks := Validate(form, HabitFields, marked);
      marked := marks;
      if data.None? {
        return None;
      }
      var fields := data.value;
      var habit := NewHabit(habits, fields["name"], toNumber(fields["target"]), fields["icon"]);
      if UniqueIds(habits) {
        NewHabitKeepsIdsUnique(habits, habit.name, habit.target, habit.icon);
      }
      habits := habits + [habit];
      storage := Some(habits);
      var view := Select(habit.id);
      newId := Some(habit.id);
    }

    /** `deleteDay(index)`: splice the day out of the first active habit, save and re-render;
        nothing happens when no habit is active. */
    method DeleteDay(index: nat)
      requires Saved()
      modifies this
      ensures Saved()
      ensures habits == DeleteDayAt(old(habits), old(activeId), index)
      ensures activeId == old(activeId) && marked == old(marked)
      ensures activeId.Some? && Find(old(habits), activeId.value).Some? ==> storage == Some(habits)
      ensures activeId.None? || Find(old(habits), activeId.value).None? ==> storage == old(storage)
      ensures UniqueIds(old(habits)) ==> UniqueIds(habits)
    {
      DeleteDayKeepsIds(habits, activeId, index);
      if activeId.None? {
        return;
      }
      var found := Find(habits, activeId.value);
      if found.None? {
        return;
      }
      var k := found.value;
      habits := habits[k := habits[k].(days := Splice(habits[k].days, index))];
      storage := Some(habits);
      var view := Select(activeId.value);
    }
  }
}
