/** The workout log screen and the row component's delete handler: the log
    is loaded from the store, and deleting a row removes every entry with
    that row's date, first from the store and then, if the write succeeded,
    from the log passed to the row. The log screen itself renders a plain list;
    pairing the load and the delete on one log is this model's assumption. */
module WorkoutLog {
  import opened JsArray
  import opened WorkoutStore

  /** `workoutLog.filter(w => w.date !== workout.date)`: the entries whose
      date differs from date, in their original order. */
  function WithoutDate(log: seq<Entry>, date: Option<string>): (r: seq<Entry>)
    ensures |r| <= |log|
    ensures forall k :: 0 <= k < |r| ==> r[k].date != date
    ensures forall k :: 0 <= k < |log| && log[k].date != date ==> log[k] in r
  {
    FilterKeepsExactly(log, (w: Entry) => w.date != date);
    Filter(log, (w: Entry) => w.date != date)
  }

  /** An entry survives the deletion exactly when it was in the log with another date. */
  lemma WithoutDateMembership(log: seq<Entry>, date: Option<string>, w: Entry)
    ensures w in WithoutDate(log, date) <==> w in log && w.date != date
  {
    FilterIsSublist(log, (e: Entry) => e.date != date);
    if w in WithoutDate(log, date) {
      SublistMember(WithoutDate(log, date), log, w);
    }
  }

  /** The survivors keep their relative order. */
  lemma WithoutDateIsSublist(log: seq<Entry>, date: Option<string>)
    ensures IsSublist(WithoutDate(log, date), log)
  {
    FilterIsSublist(log, (w: Entry) => w.date != date);
  }

  /** Deleting the same date twice gives the log of deleting it once. */
  lemma WithoutDateIdempotent(log: seq<Entry>, date: Option<string>)
    ensures WithoutDate(WithoutDate(log, date), date) == WithoutDate(log, date)
  {
    FilterIdempotent(log, (w: Entry) => w.date != date);
  }

  /** Deleting a date that no entry has leaves the log as it was. */
  lemma WithoutAbsentDate(log: seq<Entry>, date: Option<string>)
    requires forall k :: 0 <= k < |log| ==> log[k].date != date
    ensures WithoutDate(log, date) == log
  {
    FilterKeepsAll(log, (w: Entry) => w.date != date);
  }

  /** The number of entries with the given date. */
  function CountDated(log: seq<Entry>, date: Option<string>): nat {
    if log == [] then 0
    else (if log[0].date == date then 1 else 0) + CountDated(log[1..], date)
  }

  /** Exactly the entries with that date are removed, every one of them, not
      only the row that was swiped. */
  lemma {:induction false} WithoutDateRemovesAllDated(log: seq<Entry>, date: Option<string>)
    ensures |WithoutDate(log, date)| == |log| - CountDated(log, date)
  {
    if log != [] {
      WithoutDateRemovesAllDated(log[1..], date);
    }
  }

  /** Entries made by the tracker have no date, so deleting one of them
      removes every undated entry: a log of tracker entries only is emptied. */
  lemma UndatedDeleteEmptiesTrackerLog(log: seq<Entry>)
    requires forall k :: 0 <= k < |log| ==> log[k].date.None?
    ensures WithoutDate(log, None) == []
  {
    var r := WithoutDate(log, None);
    if r != [] {
      WithoutDateMembership(log, None, r[0]);
    }
  }

  /** The log screen's state, with the store it loads from and deletes through. */
  class LogScreen {
    const store: LogStore
    var workoutLog: seq<Entry>

    /** The screen shows what the store holds. */
    predicate InSync()
      reads this, store
    {
      store.saved == Some(workoutLog)
    }

    constructor (store: LogStore)
      ensures this.store == store
      ensures workoutLog == []
    {
      this.store := store;
      workoutLog := [];
    }

    /** `loadWorkoutLog`: the stored list replaces the screen's log when the
        read succeeds and something was stored; otherwise nothing changes. */
    method Load(readSucceeds: bool)
      modifies this
      ensures workoutLog == if readSucceeds && store.saved.Some? then store.saved.value else old(workoutLog)
      ensures readSucceeds && store.saved.Some? ==> InSync()
    {
      var value := store.Read(readSucceeds);
      if value.Some? {
        workoutLog := value.value;
      }
    }

    /** `deleteWorkout` for the row showing workout: the log without that
        date is written to the store, and replaces the screen's log only if
        the write succeeds. */
    method DeleteWorkout(workout: Entry, writeSucceeds: bool)
      modifies this, store
      ensures store.saved == if writeSucceeds then Some(WithoutDate(old(workoutLog), workout.date))
                             else old(store.saved)
      ensures workoutLog == if writeSucceeds then WithoutDate(old(workoutLog), workout.date)
                            else old(workoutLog)
      ensures old(InSync()) ==> InSync()
    {
      var updatedLog := WithoutDate(workoutLog, workout.date);
      var ok := store.Write(updatedLog, writeSucceeds);
      if ok {
        workoutLog := updatedLog;
      }
    }
  }
}
