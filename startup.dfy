/** Startup: the choice of the collection to load and of the habit shown first. */
module Startup {
  import opened Habits

  /** What fetching the bundled snapshot yields: a failure (network error, non-OK status
      or unreadable body, all caught alike), a readable body that is not a list, or a list. */
  datatype Fetch = FetchFailed | FetchedOther | FetchedList(items: seq<Habit>)

  /** The loaded collection and whether it is written back to storage at once. */
  datatype Loaded = Loaded(habits: seq<Habit>, persist: bool)

  /** `loadData`, with the collection empty beforehand as it is at startup. `stored` is the
      parsed blob under the storage key (None when there is none). */
  function Load(stored: Option<seq<Habit>>, fetched: Fetch): (r: Loaded)
    ensures stored.Some? && |stored.value| > 0 ==> r == Loaded(stored.value, false)
    ensures r.persist <==> (stored.None? || |stored.value| == 0) && fetched.FetchedList? && |fetched.items| > 0
    ensures r.persist ==> r.habits == fetched.items
    ensures !r.persist && (stored.None? || |stored.value| == 0) ==> r.habits == []
  {
    if stored.Some? && |stored.value| > 0 then Loaded(stored.value, false)
    else match fetched
      case FetchFailed => Loaded([], false)
      case FetchedOther => Loaded([], false)
      case FetchedList(items) => if |items| > 0 then Loaded(items, true) else Loaded([], false)
  }

  /** Something is loaded exactly when the stored list or the fetched list is non-empty,
      and a non-empty stored list wins over any snapshot. */
  lemma LoadNonEmpty(stored: Option<seq<Habit>>, fetched: Fetch)
    ensures |Load(stored, fetched).habits| > 0 <==>
      (stored.Some? && |stored.value| > 0) || (fetched.FetchedList? && |fetched.items| > 0)
  {
  }

  /** The id passed to the first render: none for an empty collection, the id in the URL
      fragment when a habit carries it, otherwise the first habit's. `fragment` is the
      fragment text converted by `Number`: an absent or empty fragment converts to 0 and
      is Some(0), so a habit with id 0 is then chosen over the first one; None stands for
      a text whose `Number` is not an integer (NaN, 1.5, Infinity), which equals no id. */
  function InitialSelection(hs: seq<Habit>, fragment: Option<int>): (r: Option<int>)
    ensures r.None? <==> |hs| == 0
    ensures r.Some? ==> Lookup(hs, r.value).Some?
    ensures fragment.Some? && (exists i :: 0 <= i < |hs| && hs[i].id == fragment.value) ==> r == fragment
    ensures |hs| > 0 && (fragment.None? || forall i :: 0 <= i < |hs| ==> hs[i].id != fragment.value) ==>
      r == Some(hs[0].id)
  {
    if |hs| == 0 then None
    else if fragment.Some? && Find(hs, fragment.value).Some? then Some(hs[Find(hs, fragment.value).value].id)
    else Some(hs[0].id)
  }
}
