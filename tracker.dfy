/** The workout tracker screen: a list of exercises being recorded, four
    text inputs, `addExercise`, which appends the typed exercise, and
    `saveWorkout`, which stores the list and moves to the log screen. */
module WorkoutTracker {
  import opened JsArray
  import opened WorkoutStore
  import Text

  const WorkoutLogRoute := "WorkoutLog"

  /** The screen's state: the list and the four inputs. */
  datatype TrackerState = TrackerState(
    exercises: seq<Entry>,
    newExercise: string,
    newSets: string,
    newReps: string,
    newWeight: string)

  /** The name is blank: empty once leading and trailing whitespace are removed. */
  predicate BlankName(st: TrackerState) {
    Text.Trim(st.newExercise) == []
  }

  /** The entry the inputs describe, as typed: nothing trimmed, no date. */
  function TypedEntry(st: TrackerState): Entry {
    Entry(st.newExercise, st.newSets, st.newReps, st.newWeight, None)
  }

  /** `addExercise` as a transition. A blank name changes nothing. Otherwise
      exactly one entry, the typed one, is appended after the earlier ones,
      and all four inputs are emptied. The counts are not checked. */
  function AddExerciseStep(st: TrackerState): (r: TrackerState)
    ensures BlankName(st) ==> r == st
    ensures !BlankName(st) ==>
              |r.exercises| == |st.exercises| + 1 &&
              r.exercises[..|st.exercises|] == st.exercises &&
              r.exercises[|st.exercises|] == TypedEntry(st) &&
              r.newExercise == r.newSets == r.newReps == r.newWeight == []
  {
    if BlankName(st) then st
    else TrackerState(st.exercises + [TypedEntry(st)], [], [], [], [])
  }

  /** Every entry of the list has a name that is not blank. */
  predicate NamedEntries(exercises: seq<Entry>) {
    forall k :: 0 <= k < |exercises| ==> Text.Trim(exercises[k].exercise) != []
  }

  /** Adding keeps every entry named: a blank name is never appended. */
  lemma AddKeepsEntriesNamed(st: TrackerState)
    requires NamedEntries(st.exercises)
    ensures NamedEntries(AddExerciseStep(st).exercises)
  {
    var r := AddExerciseStep(st);
    if !BlankName(st) {
      forall k | 0 <= k < |r.exercises| ensures Text.Trim(r.exercises[k].exercise) != [] {
        if k < |st.exercises| {
          assert r.exercises[k] == r.exercises[..|st.exercises|][k];
        }
      }
    }
  }

  /** Any strings are accepted as sets, reps and weight, the empty ones too:
      with a named exercise, the add appends whatever was typed. */
  lemma AddAcceptsAnyCounts(exercises: seq<Entry>, name: string, sets: string, reps: string, weight: string)
    requires Text.Trim(name) != []
    ensures AddExerciseStep(TrackerState(exercises, name, sets, reps, weight)).exercises ==
            exercises + [Entry(name, sets, reps, weight, None)]
  {
  }

  /** The result of `saveWorkout`: where it navigated, the list after it,
      and the store's slot after it. */
  datatype SaveResult = SaveResult(
    navigation: Option<string>,
    exercises: seq<Entry>,
    saved: Option<seq<Entry>>)

  /** `saveWorkout` as a transition. An empty list does nothing. Otherwise
      the whole list is written over the stored log; only when the write
      succeeds does the screen move to the log and empty its list. */
  function SaveWorkoutStep(exercises: seq<Entry>, saved: Option<seq<Entry>>, writeSucceeds: bool): (r: SaveResult)
    ensures exercises == [] ==> r == SaveResult(None, [], saved)
    ensures r.saved == if exercises != [] && writeSucceeds then Some(exercises) else saved
    ensures exercises != [] && !writeSucceeds ==> r.exercises == exercises
    ensures r.navigation.Some? <==> exercises != [] && writeSucceeds
    ensures r.navigation.Some? ==> r.navigation.value == WorkoutLogRoute
    ensures r.exercises == [] || r.exercises == exercises
    ensures r.exercises == [] ==> exercises == [] || r.saved == Some(exercises)
    ensures r.exercises != [] ==> r.saved == saved && r.navigation.None?
  {
    if exercises == [] then SaveResult(None, exercises, saved)
    else if writeSucceeds then SaveResult(Some(WorkoutLogRoute), [], Some(exercises))
    else SaveResult(None, exercises, saved)
  }

  /** The tracker screen's state, updated in place by its handlers. The
      store is shared with the log screen. */
  class Tracker {
    const store: LogStore
    var exercises: seq<Entry>
    var newExercise: string
    var newSets: string
    var newReps: string
    var newWeight: string

    function State(): TrackerState
      reads this
    {
      TrackerState(exercises, newExercise, newSets, newReps, newWeight)
    }

    /** Every entry in the list has a non-blank name. */
    predicate Valid()
      reads this
    {
      NamedEntries(exercises)
    }

    constructor (store: LogStore)
      ensures this.store == store
      ensures State() == TrackerState([], [], [], [], [])
      ensures Valid()
    {
      this.store := store;
      exercises := [];
      newExercise, newSets, newReps, newWeight := [], [], [], [];
    }

    /** The four text inputs' change handlers. */
    method EnterFields(exercise: string, sets: string, reps: string, weight: string)
      modifies this
      ensures State() == old(State()).(newExercise := exercise, newSets := sets, newReps := reps, newWeight := weight)
    {
      newExercise, newSets, newReps, newWeight := exercise, sets, reps, weight;
    }

    /** `addExercise`. */
    method AddExercise()
      modifies this
      ensures State() == AddExerciseStep(old(State()))
      ensures old(Valid()) ==> Valid()
    {
      ghost var st := State();
      if Text.Trim(newExercise) != [] {
        exercises := exercises + [Entry(newExercise, newSets, newReps, newWeight, None)];
        newExercise := [];
        newSets := [];
        newReps := [];
        newWeight := [];
      }
      if NamedEntries(st.exercises) {
        AddKeepsEntriesNamed(st);
      }
    }

    /** `saveWorkout`; the store's write succeeds exactly when writeSucceeds
        holds. Returns the screen navigated to, if any. The inputs are not
        touched. */
    method SaveWorkout(writeSucceeds: bool) returns (navigatedTo: Option<string>)
      modifies this, store
      ensures SaveResult(navigatedTo, exercises, store.saved) ==
              SaveWorkoutStep(old(exercises), old(store.saved), writeSucceeds)
      ensures newExercise == old(newExercise) && newSets == old(newSets)
      ensures newReps == old(newReps) && newWeight == old(newWeight)
      ensures old(Valid()) ==> Valid()
    {
      navigatedTo := None;
      if |exercises| > 0 {
        var ok := store.Write(exercises, writeSucceeds);
        if ok {
          navigatedTo := Some(WorkoutLogRoute);
          exercises := [];
        }
      }
    }
  }
}
