/**
 Connector scheduling: which snapshots are due, what a due-only run records, and the advisory
 last-sync state between runs. Times are whole microseconds. The remote side decides whether a
 connector's attempt succeeds and when each snapshot is retrieved.
 */
module Scheduler {
  import opened Options
  import opened Text

  datatype Key = Key(name: string, id: string)
  type Values = map<Key, int>

  datatype Schedule = Hourly | Daily | Weekly

  const HOUR := 3_600_000_000

  function Interval(s: Schedule): (d: int)
    ensures d > 0
  {
    match s
    case Hourly => HOUR
    case Daily => 24 * HOUR
    case Weekly => 7 * 24 * HOUR
  }

  datatype Snapshot = Snapshot(id: string, schedule: Option<Schedule>)
  datatype Manifest = Manifest(name: string, snapshots: seq<Snapshot>)

  /** What one connector's attempt comes to; `at` is when each snapshot is retrieved. */
  datatype Attempt = Failing | Fetched(at: string -> int)

  datatype Outcome = Outcome(name: string, ids: seq<string>, attempted: bool, succeeded: bool)

  datatype Success = Success(key: Key, at: int)

  function ValueAt(values: Values, key: Key): Option<int> {
    if key in values then Some(values[key]) else None
  }

  predicate IsDue(schedule: Option<Schedule>, last: Option<int>, now: int) {
    schedule.Some? && (last.None? || now - last.value >= Interval(schedule.value))
  }

  /** The snapshots of one connector to fetch, in manifest order. */
  function Selected(name: string, snapshots: seq<Snapshot>, dueOnly: bool, values: Values, now: int): seq<string> {
    if snapshots == [] then []
    else
      var rest := Selected(name, snapshots[1..], dueOnly, values, now);
      if !dueOnly || IsDue(snapshots[0].schedule, ValueAt(values, Key(name, snapshots[0].id)), now)
      then [snapshots[0].id] + rest else rest
  }

  function RecordAll(values: Values, name: string, ids: seq<string>, at: string -> int): Values {
    if ids == [] then values
    else RecordAll(values, name, ids[..|ids| - 1], at)[Key(name, ids[|ids| - 1]) := at(ids[|ids| - 1])]
  }

  function LogAll(log: seq<Success>, name: string, ids: seq<string>, at: string -> int): seq<Success> {
    if ids == [] then log
    else LogAll(log, name, ids[..|ids| - 1], at) + [Success(Key(name, ids[|ids| - 1]), at(ids[|ids| - 1]))]
  }

  ghost predicate DistinctIds(snapshots: seq<Snapshot>) {
    forall i, j | 0 <= i < j < |snapshots| :: snapshots[i].id != snapshots[j].id
  }

  ghost predicate ValidManifests(manifests: seq<Manifest>) {
    && (forall i | 0 <= i < |manifests| :: DistinctIds(manifests[i].snapshots))
    && forall i, j | 0 <= i < j < |manifests| :: manifests[i].name != manifests[j].name
  }

  /** Every snapshot keeps the schedule it was configured with. */
  ghost predicate Configured(manifests: seq<Manifest>, schedules: Key -> Option<Schedule>) {
    forall i, j | 0 <= i < |manifests| && 0 <= j < |manifests[i].snapshots| ::
      manifests[i].snapshots[j].schedule == schedules(Key(manifests[i].name, manifests[i].snapshots[j].id))
  }

  // ------------------------------------------------------- what selection means

  lemma {:induction false} SelectedMeaning(name: string, snapshots: seq<Snapshot>, values: Values, now: int, id: string)
    ensures id in Selected(name, snapshots, true, values, now) <==>
              exists j :: 0 <= j < |snapshots| && snapshots[j].id == id
                          && IsDue(snapshots[j].schedule, ValueAt(values, Key(name, id)), now)
  {
    if snapshots != [] {
      SelectedMeaning(name, snapshots[1..], values, now, id);
      if j :|
        && 0 <= j < |snapshots| && snapshots[j].id == id
        && IsDue(snapshots[j].schedule, ValueAt(values, Key(name, id)), now)
      {
        assert j > 0 ==> snapshots[1..][j - 1] == snapshots[j];
      }
    }
  }

  lemma {:induction false} SelectedDistinct(name: string, snapshots: seq<Snapshot>, dueOnly: bool, values: Values,
                                            now: int)
    requires DistinctIds(snapshots)
    ensures forall i, j | 0 <= i < j < |Selected(name, snapshots, dueOnly, values, now)| ::
              Selected(name, snapshots, dueOnly, values, now)[i] != Selected(name, snapshots, dueOnly, values, now)[j]
    ensures forall id | id in Selected(name, snapshots, dueOnly, values, now) :: exists j ::
              0 <= j < |snapshots| && snapshots[j].id == id
  {
    if snapshots != [] {
      SelectedDistinct(name, snapshots[1..], dueOnly, values, now);
      var rest := Selected(name, snapshots[1..], dueOnly, values, now);
      forall id | id in rest ensures id != snapshots[0].id && exists j ::
          0 <= j < |snapshots| && snapshots[j].id == id {
        var j :| 0 <= j < |snapshots[1..]| && snapshots[1..][j].id == id;
        assert snapshots[j + 1].id == id;
      }
      var r := Selected(name, snapshots, dueOnly, values, now);
      forall i, j | 0 <= i < j < |r| ensures r[i] != r[j] {
        if r != rest && i == 0 {
          assert r[j] == rest[j - 1] && rest[j - 1] in rest;
        }
      }
    }
  }

  // ------------------------------------------------------------------- spacing

  /** Any two successes of one snapshot are at least its interval apart. */
  ghost predicate Spaced(log: seq<Success>, schedules: Key -> Option<Schedule>) {
    forall i, j | 0 <= i < j < |log| && log[i].key == log[j].key && schedules(log[i].key).Some? ::
      log[j].at - log[i].at >= Interval(schedules(log[i].key).value)
  }

  /** The state knows the latest success of every snapshot. */
  ghost predicate Remembers(values: Values, log: seq<Success>) {
    forall s | s in log :: s.key in values && s.at <= values[s.key]
  }

  lemma {:induction false} RecordTouches(values: Values, name: string, ids: seq<string>, at: string -> int, key: Key)
    ensures ValueAt(RecordAll(values, name, ids, at), key) ==
            if key.name == name && key.id in ids then Some(at(key.id)) else ValueAt(values, key)
  {
    if ids != [] {
      RecordTouches(values, name, ids[..|ids| - 1], at, key);
      assert ids == ids[..|ids| - 1] + [ids[|ids| - 1]];
    }
  }

  lemma {:induction false} LogTouches(log: seq<Success>, name: string, ids: seq<string>, at: string -> int, s: Success)
    ensures s in LogAll(log, name, ids, at) <==>
              s in log || (s.key.name == name && s.key.id in ids && s.at == at(s.key.id))
  {
    if ids != [] {
      var front, last := ids[..|ids| - 1], ids[|ids| - 1];
      LogTouches(log, name, front, at, s);
      assert ids == front + [last];
      assert s == Success(Key(name, last), at(last)) <==> s.key == Key(name, last) && s.at == at(last);
    }
  }

  lemma SuccessKeepsSpacing(log: seq<Success>, key: Key, at: int, schedules: Key -> Option<Schedule>)
    requires Spaced(log, schedules) && schedules(key).Some?
    requires forall s | s in log && s.key == key :: at - s.at >= Interval(schedules(key).value)
    ensures Spaced(log + [Success(key, at)], schedules)
  {
    var longer := log + [Success(key, at)];
    forall i, j | 0 <= i < j < |longer| && longer[i].key == longer[j].key && schedules(longer[i].key).Some?
      ensures longer[j].at - longer[i].at >= Interval(schedules(longer[i].key).value)
    {
      if j == |log| {
        assert longer[i] == log[i] && log[i] in log;
      }
    }
  }

  /** Recording snapshots whose earlier successes are an interval back keeps all successes spaced. */
  lemma {:induction false} ConnectorKeepsSpacing(log: seq<Success>, name: string, ids: seq<string>, at: string -> int,
                                                 schedules: Key -> Option<Schedule>)
    requires Spaced(log, schedules) && forall i, j | 0 <= i < j < |ids| :: ids[i] != ids[j]
    requires forall id | id in ids :: schedules(Key(name, id)).Some?
    requires forall s | s in log && s.key.name == name && s.key.id in ids ::
               at(s.key.id) - s.at >= Interval(schedules(s.key).value)
    ensures Spaced(LogAll(log, name, ids, at), schedules)
  {
    if ids != [] {
      var front, last := ids[..|ids| - 1], ids[|ids| - 1];
      assert ids == front + [last] && last !in front;
      ConnectorKeepsSpacing(log, name, front, at, schedules);
      forall s | s in LogAll(log, name, front, at) && s.key == Key(name, last)
        ensures at(last) - s.at >= Interval(schedules(Key(name, last)).value)
      {
        LogTouches(log, name, front, at, s);
      }
      SuccessKeepsSpacing(LogAll(log, name, front, at), Key(name, last), at(last), schedules);
    }
  }

  /** What one best-effort record leaves in the state file. */
  function Recorded(fits: Values -> bool, stored: Values, name: string, ids: seq<string>, at: string -> int,
                    written: bool): Values
  {
    if ids != [] && written then RecordAll(Readable(fits, stored), name, ids, at) else stored
  }

  function Readable(fits: Values -> bool, stored: Values): Values {
    if fits(stored) then stored else map[]
  }

  /** Nothing is forgotten: the write worked, and the state could be read or holds nothing else. */
  ghost predicate KeepsMemory(fits: Values -> bool, stored: Values, log: seq<Success>, name: string, ids: seq<string>,
                              written: bool)
  {
    ids == [] || (written && (fits(stored) || forall s | s in log :: s.key.name == name && s.key.id in ids))
  }

  /** One record step keeps every success in mind exactly when nothing is forgotten. */
  lemma RecordRemembersExactly(fits: Values -> bool, stored: Values, log: seq<Success>, name: string, ids: seq<string>,
                               at: string -> int, written: bool)
    requires Remembers(stored, log)
    requires forall key | key in stored && key.name == name && key.id in ids :: stored[key] < at(key.id)
    ensures Remembers(Recorded(fits, stored, name, ids, at, written), LogAll(log, name, ids, at)) <==>
              KeepsMemory(fits, stored, log, name, ids, written)
  {
    var after, longer := Recorded(fits, stored, name, ids, at, written), LogAll(log, name, ids, at);
    forall s ensures s in longer <==> s in log || (s.key.name == name && s.key.id in ids && s.at == at(s.key.id)) {
      LogTouches(log, name, ids, at, s);
    }
    if ids != [] && written {
      forall key ensures ValueAt(after, key) ==
                         if key.name == name && key.id in ids then Some(at(key.id))
                             else ValueAt(Readable(fits, stored), key)
      {
        RecordTouches(Readable(fits, stored), name, ids, at, key);
      }
    } else if ids != [] {
      var s := Success(Key(name, ids[0]), at(ids[0]));
      assert s in longer;
    }
  }

  // -------------------------------------------------------------- the runs

  /** The advisory state file; `fits` says whether a state is small enough to be read back. */
  class LastSync {
    const fits: Values -> bool
    var stored: Values
    ghost var log: seq<Success>

    constructor (fits: Values -> bool)
      ensures this.fits == fits && stored == map[] && log == []
    {
      this.fits, stored, log := fits, map[], [];
    }

    function Load(): Values
      reads this
    {
      if fits(stored) then stored else map[]
    }

    /** Best effort: the state as it can be read, plus these snapshots; `written` is whether the write worked. */
    method RecordLastSync(name: string, ids: seq<string>, at: string -> int, written: bool)
      modifies this
      ensures log == LogAll(old(log), name, ids, at)
      ensures stored == Recorded(fits, old(stored), name, ids, at, written)
    {
      log := LogAll(log, name, ids, at);
      if ids == [] {
        return;
      }
      var values := Load();
      for j := 0 to |ids|
        invariant values == RecordAll(old(Load()), name, ids[..j], at)
        invariant stored == old(stored) && log == LogAll(old(log), name, ids, at)
      {
        assert ids[..j + 1][..j] == ids[..j];
        values := values[Key(name, ids[j]) := at(ids[j])];
      }
      assert ids[..|ids|] == ids;
      if written {
        stored := values;
      }
    }

    /**
     One run over all connectors. The state is read once at the start; a connector without selected
     snapshots is not attempted, a failing one records nothing, and the others go on regardless.
     */
    method SyncAll(manifests: seq<Manifest>, dueOnly: bool, now: int, attempts: seq<Attempt>, written: seq<bool>)
      returns (outcomes: seq<Outcome>)
      requires |attempts| == |written| == |manifests|
      modifies this
      ensures |outcomes| == |manifests|
      ensures dueOnly ==> forall i | 0 <= i < |manifests| ::
                outcomes[i].attempted <==> HasDue(manifests[i], old(Load()), now)
      ensures forall i | 0 <= i < |manifests| ::
                outcomes[i] == OutcomeOf(manifests[i], dueOnly, old(Load()), now, attempts[i])
      ensures (stored, log) == AfterRun(fits, manifests, dueOnly, old(Load()), now, attempts, written, |manifests|,
                old(stored), old(log))
    {
      outcomes := [];
      var loaded := Load();
      for i := 0 to |manifests|
        invariant |outcomes| == i
        invariant forall j | 0 <= j < i :: outcomes[j] == OutcomeOf(manifests[j], dueOnly, loaded, now, attempts[j])
        invariant (stored, log) ==
                  AfterRun(fits, manifests, dueOnly, loaded, now, attempts, written, i, old(stored), old(log))
      {
        var ids := Selected(manifests[i].name, manifests[i].snapshots, dueOnly, loaded, now);
        if ids == [] {
          outcomes := outcomes + [Outcome(manifests[i].name, [], false, false)];
        } else if attempts[i].Failing? {
          outcomes := outcomes + [Outcome(manifests[i].name, ids, true, false)];
        } else {
          RecordLastSync(manifests[i].name, ids, attempts[i].at, written[i]);
          outcomes := outcomes + [Outcome(manifests[i].name, ids, true, true)];
        }
      }
      forall i | 0 <= i < |manifests| && dueOnly
        ensures outcomes[i].attempted <==> HasDue(manifests[i], loaded, now)
      {
        DueMeansAttempted(manifests[i], loaded, now, attempts[i]);
      }
    }
  }

  function OutcomeOf(m: Manifest, dueOnly: bool, loaded: Values, now: int, attempt: Attempt): Outcome {
    var ids := Selected(m.name, m.snapshots, dueOnly, loaded, now);
    Outcome(m.name, ids, ids != [], ids != [] && attempt.Fetched?)
  }

  ghost predicate HasDue(m: Manifest, loaded: Values, now: int) {
    exists j :: 0 <= j < |m.snapshots|
        && IsDue(m.snapshots[j].schedule, ValueAt(loaded, Key(m.name, m.snapshots[j].id)), now)
  }

  /** The state and the log after the first `n` connectors of a run. */
  ghost function AfterRun(fits: Values -> bool, manifests: seq<Manifest>, dueOnly: bool, loaded: Values, now: int,
                          attempts: seq<Attempt>, written: seq<bool>, n: nat, stored: Values,
                              log: seq<Success>): (Values, seq<Success>)
    requires n <= |manifests| == |attempts| == |written|
  {
    if n == 0 then (stored, log)
    else
      var before := AfterRun(fits, manifests, dueOnly, loaded, now, attempts, written, n - 1, stored, log);
      var m := manifests[n - 1];
      var ids := Selected(m.name, m.snapshots, dueOnly, loaded, now);
      if ids == [] || attempts[n - 1].Failing? then before
      else
        (Recorded(fits, before.0, m.name, ids, attempts[n - 1].at, written[n - 1]),
         LogAll(before.1, m.name, ids, attempts[n - 1].at))
  }

  // ------------------------------------------------------------ main results

  /** Exactly the connectors with a due snapshot are attempted, with exactly their due snapshots. */
  lemma DueMeansAttempted(m: Manifest, loaded: Values, now: int, attempt: Attempt)
    ensures OutcomeOf(m, true, loaded, now, attempt).attempted <==> HasDue(m, loaded, now)
    ensures forall id :: id in OutcomeOf(m, true, loaded, now, attempt).ids <==>
              exists j :: 0 <= j < |m.snapshots| && m.snapshots[j].id == id
                          && IsDue(m.snapshots[j].schedule, ValueAt(loaded, Key(m.name, id)), now)
  {
    var ids := Selected(m.name, m.snapshots, true, loaded, now);
    forall id ensures id in ids <==>
                        exists j :: 0 <= j < |m.snapshots| && m.snapshots[j].id == id
                                    && IsDue(m.snapshots[j].schedule, ValueAt(loaded, Key(m.name, id)), now)
    {
      SelectedMeaning(m.name, m.snapshots, loaded, now, id);
    }
    if ids != [] {
      assert ids[0] in ids;
    }
    if HasDue(m, loaded, now) {
      var j :| 0 <= j < |m.snapshots|
          && IsDue(m.snapshots[j].schedule, ValueAt(loaded, Key(m.name, m.snapshots[j].id)), now);
      assert m.snapshots[j].id in ids;
    }
  }

  /** One run with what the remote side and the disk do during it. */
  datatype Run = Run(manifests: seq<Manifest>, now: int, attempts: seq<Attempt>, written: seq<bool>)

  ghost predicate SizedRun(r: Run) {
    |r.manifests| == |r.attempts| == |r.written|
  }

  /** State and log after the first `c` connectors of a due-only run. */
  ghost function Within(fits: Values -> bool, r: Run, c: nat, stored: Values, log: seq<Success>): (Values, seq<Success>)
    requires SizedRun(r) && c <= |r.manifests|
  {
    AfterRun(fits, r.manifests, true, Readable(fits, stored), r.now, r.attempts, r.written, c, stored, log)
  }

  /** The snapshots connector `c` records in this run. */
  function RecordedBy(fits: Values -> bool, r: Run, c: nat, stored: Values): seq<string>
    requires c < |r.manifests| == |r.attempts|
  {
    if r.attempts[c].Failing? then []
    else Selected(r.manifests[c].name, r.manifests[c].snapshots, true, Readable(fits, stored), r.now)
  }

  // ------------------------------------------------------------ failing connectors

  /** Connector `c` overwrites a state that cannot be read. */
  ghost predicate Overwrites(fits: Values -> bool, r: Run, c: nat, stored: Values, log: seq<Success>)
    requires SizedRun(r) && c < |r.manifests|
  {
    RecordedBy(fits, r, c, stored) != [] && r.written[c] && !fits(Within(fits, r, c, stored, log).0)
  }

  ghost predicate Overwritten(fits: Values -> bool, r: Run, n: nat, stored: Values, log: seq<Success>)
    requires SizedRun(r) && n <= |r.manifests|
  {
    exists c :: 0 <= c < n && Overwrites(fits, r, c, stored, log)
  }

  /** An entry nothing was recorded for is as it was, or lost with the state that held it. */
  lemma {:induction false} OthersUntouched(fits: Values -> bool, r: Run, n: nat, stored: Values, log: seq<Success>,
                                           key: Key)
    requires SizedRun(r) && n <= |r.manifests|
    requires forall c | 0 <= c < n :: r.manifests[c].name != key.name || r.attempts[c].Failing?
    ensures ValueAt(Within(fits, r, n, stored, log).0, key) ==
            if Overwritten(fits, r, n, stored, log) then None else ValueAt(stored, key)
  {
    if n > 0 {
      var c := n - 1;
      OthersUntouched(fits, r, c, stored, log, key);
      var before := Within(fits, r, c, stored, log);
      var ids := RecordedBy(fits, r, c, stored);
      assert Overwritten(fits, r, n, stored, log) <==>
               Overwritten(fits, r, c, stored, log) || Overwrites(fits, r, c, stored, log);
      if ids != [] && r.written[c] {
        RecordTouches(Readable(fits, before.0), r.manifests[c].name, ids, r.attempts[c].at, key);
      }
    }
  }

  /**
   MAIN: whatever the others and the disk do, a failing connector's last-sync entry changes exactly
   when another connector overwrites a state that cannot be read, and then it is lost.
   */
  lemma FailureIsIsolated(fits: Values -> bool, r: Run, stored: Values, log: seq<Success>, i: nat, id: string)
    requires SizedRun(r) && ValidManifests(r.manifests) && i < |r.manifests| && r.attempts[i].Failing?
    ensures var key, after := Key(r.manifests[i].name, id), Within(fits, r, |r.manifests|, stored, log).0;
            && (ValueAt(after, key) != ValueAt(stored, key) <==>
                  key in stored && Overwritten(fits, r, |r.manifests|, stored, log))
            && (ValueAt(after, key) == ValueAt(stored, key) || key !in after)
  {
    forall j | 0 <= j < |r.manifests| ensures r.manifests[j].name != r.manifests[i].name || r.attempts[j].Failing? {
      assert j < i ==> r.manifests[j].name != r.manifests[i].name;
      assert i < j ==> r.manifests[i].name != r.manifests[j].name;
    }
    OthersUntouched(fits, r, |r.manifests|, stored, log, Key(r.manifests[i].name, id));
  }

  // ------------------------------------------------------------- spaced successes

  ghost predicate ClockGoesOn(r: Run) {
    forall i, id: string | 0 <= i < |r.attempts| && r.attempts[i].Fetched? :: r.attempts[i].at(id) >= r.now
  }

  ghost predicate OrderlyRun(r: Run, schedules: Key -> Option<Schedule>) {
    SizedRun(r) && ValidManifests(r.manifests) && Configured(r.manifests, schedules) && ClockGoesOn(r)
  }

  /** A snapshot fetched less than an interval ago is due again by the state as it can be read. */
  ghost predicate ForgetsRecent(values: Values, log: seq<Success>, schedules: Key -> Option<Schedule>, now: int) {
    exists s :: s in log && schedules(s.key).Some? && now - s.at < Interval(schedules(s.key).value)
                && IsDue(schedules(s.key), ValueAt(values, s.key), now)
  }

  /** The selected snapshots of one connector are due by the state loaded at the start. */
  lemma SelectedAreDue(m: Manifest, loaded: Values, now: int, schedules: Key -> Option<Schedule>, id: string)
    requires forall j | 0 <= j < |m.snapshots| :: m.snapshots[j].schedule == schedules(Key(m.name, m.snapshots[j].id))
    requires id in Selected(m.name, m.snapshots, true, loaded, now)
    ensures IsDue(schedules(Key(m.name, id)), ValueAt(loaded, Key(m.name, id)), now)
  {
    SelectedMeaning(m.name, m.snapshots, loaded, now, id);
  }

  /** What a run has logged for a connector not yet reached was logged before the run. */
  lemma {:induction false} LoggedBefore(fits: Values -> bool, r: Run, c: nat, n: nat, stored: Values, log: seq<Success>,
                                        s: Success)
    requires SizedRun(r) && ValidManifests(r.manifests) && c <= n < |r.manifests|
    requires s.key.name == r.manifests[n].name && s in Within(fits, r, c, stored, log).1
    ensures s in log
  {
    if c > 0 {
      assert r.manifests[c - 1].name != r.manifests[n].name;
      var ids := Selected(r.manifests[c - 1].name, r.manifests[c - 1].snapshots, true, Readable(fits, stored), r.now);
      if r.attempts[c - 1].Fetched? {
        LogTouches(Within(fits, r, c - 1, stored, log).1, r.manifests[c - 1].name, ids, r.attempts[c - 1].at, s);
      }
      LoggedBefore(fits, r, c - 1, n, stored, log, s);
    }
  }

  lemma ConnectorIsSpaced(fits: Values -> bool, r: Run, c: nat, stored: Values, log: seq<Success>,
                          schedules: Key -> Option<Schedule>)
    requires OrderlyRun(r, schedules) && c < |r.manifests| && r.attempts[c].Fetched?
    requires !ForgetsRecent(Readable(fits, stored), log, schedules, r.now)
    requires Spaced(Within(fits, r, c, stored, log).1, schedules)
    ensures Spaced(Within(fits, r, c + 1, stored, log).1, schedules)
  {
    var m, before, at := r.manifests[c], Within(fits, r, c, stored, log).1, r.attempts[c].at;
    var ids := Selected(m.name, m.snapshots, true, Readable(fits, stored), r.now);
    SelectedDistinct(m.name, m.snapshots, true, Readable(fits, stored), r.now);
    forall id | id in ids ensures IsDue(schedules(Key(m.name, id)), ValueAt(Readable(fits, stored), Key(m.name, id)),
        r.now) {
      SelectedAreDue(m, Readable(fits, stored), r.now, schedules, id);
    }
    forall s | s in before && s.key.name == m.name && s.key.id in ids
      ensures at(s.key.id) - s.at >= Interval(schedules(s.key).value)
    {
      LoggedBefore(fits, r, c, c, stored, log, s);
      assert s.key == Key(m.name, s.key.id);
      assert at(s.key.id) >= r.now;
    }
    ConnectorKeepsSpacing(before, m.name, ids, at, schedules);
  }

  lemma {:induction false} RunKeepsSpacing(fits: Values -> bool, r: Run, c: nat, stored: Values, log: seq<Success>,
                                           schedules: Key -> Option<Schedule>)
    requires OrderlyRun(r, schedules) && c <= |r.manifests| && Spaced(log, schedules)
    requires !ForgetsRecent(Readable(fits, stored), log, schedules, r.now)
    ensures Spaced(Within(fits, r, c, stored, log).1, schedules)
  {
    if c > 0 {
      RunKeepsSpacing(fits, r, c - 1, stored, log, schedules);
      if r.attempts[c - 1].Fetched? {
        ConnectorIsSpaced(fits, r, c - 1, stored, log, schedules);
      }
    }
  }

  /** A run at this time after which two successes of a snapshot are less than its interval apart. */
  ghost predicate BreaksSpacing(fits: Values -> bool, r: Run, stored: Values, log: seq<Success>,
                                schedules: Key -> Option<Schedule>, now: int)
  {
    OrderlyRun(r, schedules) && r.now == now && !Spaced(Within(fits, r, |r.manifests|, stored, log).1, schedules)
  }

  /** The run that fetches just this snapshot. */
  lemma EarlyRun(fits: Values -> bool, stored: Values, log: seq<Success>, schedules: Key -> Option<Schedule>, now: int,
                 s: Success) returns (r: Run)
    requires s in log && schedules(s.key).Some? && now - s.at < Interval(schedules(s.key).value)
    requires IsDue(schedules(s.key), ValueAt(Readable(fits, stored), s.key), now)
    ensures BreaksSpacing(fits, r, stored, log, schedules, now)
  {
    var snapshots := [Snapshot(s.key.id, schedules(s.key))];
    r := Run([Manifest(s.key.name, snapshots)], now, [Fetched(_ => now)], [true]);
    assert s.key == Key(s.key.name, s.key.id);
    assert snapshots[1..] == [];
    assert Selected(s.key.name, snapshots, true, Readable(fits, stored), now) == [s.key.id];
    var after := Within(fits, r, 1, stored, log).1;
    assert Within(fits, r, 0, stored, log).1 == log;
    var front: seq<string> := [s.key.id][..0];
    assert LogAll(log, s.key.name, front, _ => now) == log;
    assert after == LogAll(log, s.key.name, [s.key.id], r.attempts[0].at);
    LogOne(log, s.key.name, s.key.id, r.attempts[0].at);
    var i :| 0 <= i < |log| && log[i] == s;
    assert after[i] == s && after[|log|] == Success(s.key, now);
  }

  lemma LogOne(log: seq<Success>, name: string, id: string, at: string -> int)
    ensures LogAll(log, name, [id], at) == log + [Success(Key(name, id), at(id))]
  {
    assert [id][..0] == [];
  }

  /**
   MAIN: some due-only run starting now can fetch a snapshot inside its interval exactly when the
   state, as it can be read, makes a recently fetched snapshot due.
   */
  lemma NextRunEarlyExactly(fits: Values -> bool, stored: Values, log: seq<Success>, schedules: Key -> Option<Schedule>,
                            now: int)
    requires Spaced(log, schedules)
    ensures (exists r: Run :: BreaksSpacing(fits, r, stored, log, schedules, now)) <==>
              ForgetsRecent(Readable(fits, stored), log, schedules, now)
  {
    if r: Run :| BreaksSpacing(fits, r, stored, log, schedules, now) {
      if !ForgetsRecent(Readable(fits, stored), log, schedules, now) {
        RunKeepsSpacing(fits, r, |r.manifests|, stored, log, schedules);
      }
    }
    if ForgetsRecent(Readable(fits, stored), log, schedules, now) {
      var s :| s in log && schedules(s.key).Some? && now - s.at < Interval(schedules(s.key).value)
               && IsDue(schedules(s.key), ValueAt(Readable(fits, stored), s.key), now);
      var r := EarlyRun(fits, stored, log, schedules, now, s);
    }
  }

  // ----------------------------------------------------------------- whole runs

  ghost predicate Sized(runs: seq<Run>) {
    forall i | 0 <= i < |runs| :: SizedRun(runs[i])
  }

  ghost function AfterRuns(fits: Values -> bool, runs: seq<Run>, n: nat): (Values, seq<Success>)
    requires n <= |runs| && Sized(runs)
  {
    if n == 0 then (map[], [])
    else
      var before, r := AfterRuns(fits, runs, n - 1), runs[n - 1];
      Within(fits, r, |r.manifests|, before.0, before.1)
  }

  /** State and log when connector `c` of run `i` is reached. */
  ghost function At(fits: Values -> bool, runs: seq<Run>, i: nat, c: nat): (Values, seq<Success>)
    requires Sized(runs) && i < |runs| && c <= |runs[i].manifests|
  {
    Within(fits, runs[i], c, AfterRuns(fits, runs, i).0, AfterRuns(fits, runs, i).1)
  }

  /** The state read at the start of run `i` has every earlier success in it. */
  ghost predicate StartsKnowing(fits: Values -> bool, runs: seq<Run>, i: nat)
    requires Sized(runs) && i < |runs|
  {
    Remembers(Readable(fits, AfterRuns(fits, runs, i).0), AfterRuns(fits, runs, i).1)
  }

  lemma RememberedIsNotForgotten(values: Values, log: seq<Success>, schedules: Key -> Option<Schedule>, now: int)
    requires Remembers(values, log)
    ensures !ForgetsRecent(values, log, schedules, now)
  {
  }

  ghost predicate KnowingRun(fits: Values -> bool, runs: seq<Run>, i: nat, schedules: Key -> Option<Schedule>)
    requires Sized(runs) && i < |runs|
  {
    OrderlyRun(runs[i], schedules) && StartsKnowing(fits, runs, i)
  }

  lemma OneMoreRun(fits: Values -> bool, runs: seq<Run>, i: nat)
    requires Sized(runs) && i < |runs|
    ensures AfterRuns(fits, runs, i + 1) == At(fits, runs, i, |runs[i].manifests|)
  {
  }

  lemma OneMoreRunIsSpaced(fits: Values -> bool, runs: seq<Run>, i: nat, schedules: Key -> Option<Schedule>)
    requires Sized(runs) && i < |runs| && KnowingRun(fits, runs, i, schedules)
    requires Spaced(AfterRuns(fits, runs, i).1, schedules)
    ensures Spaced(At(fits, runs, i, |runs[i].manifests|).1, schedules)
  {
    var before, r := AfterRuns(fits, runs, i), runs[i];
    RememberedIsNotForgotten(Readable(fits, before.0), before.1, schedules, r.now);
    RunKeepsSpacing(fits, r, |r.manifests|, before.0, before.1, schedules);
  }

  /**
   MAIN: over any sequence of due-only runs that start with a state knowing the successes so far,
   successes of a snapshot are at least one interval apart, whatever fails during the runs.
   */
  lemma {:induction false} SuccessesAreSpaced(fits: Values -> bool, runs: seq<Run>, n: nat,
                                              schedules: Key -> Option<Schedule>)
    requires n <= |runs| && Sized(runs)
    requires forall i | 0 <= i < n :: KnowingRun(fits, runs, i, schedules)
    ensures Spaced(AfterRuns(fits, runs, n).1, schedules)
  {
    if n > 0 {
      SuccessesAreSpaced(fits, runs, n - 1, schedules);
      OneMoreRunIsSpaced(fits, runs, n - 1, schedules);
      OneMoreRun(fits, runs, n - 1);
    }
  }

  /** Each run starts after everything logged so far. */
  ghost predicate StartsLater(fits: Values -> bool, runs: seq<Run>, i: nat)
    requires Sized(runs) && i < |runs|
  {
    forall s | s in AfterRuns(fits, runs, i).1 :: s.at < runs[i].now
  }

  ghost predicate LaterRun(fits: Values -> bool, runs: seq<Run>, i: nat, schedules: Key -> Option<Schedule>)
    requires Sized(runs) && i < |runs|
  {
    OrderlyRun(runs[i], schedules) && StartsLater(fits, runs, i)
  }

  /** Every entry of the state is the time of a logged success. */
  ghost predicate FromLog(values: Values, log: seq<Success>) {
    forall key | key in values :: Success(key, values[key]) in log
  }

  lemma {:induction false} RunKeepsFromLog(fits: Values -> bool, r: Run, c: nat, stored: Values, log: seq<Success>)
    requires SizedRun(r) && c <= |r.manifests| && FromLog(stored, log)
    ensures FromLog(Within(fits, r, c, stored, log).0, Within(fits, r, c, stored, log).1)
  {
    if c > 0 {
      RunKeepsFromLog(fits, r, c - 1, stored, log);
      var before, after := Within(fits, r, c - 1, stored, log), Within(fits, r, c, stored, log);
      var name, ids := r.manifests[c - 1].name, RecordedBy(fits, r, c - 1, stored);
      if ids != [] {
        var at := r.attempts[c - 1].at;
        forall key | key in after.0 ensures Success(key, after.0[key]) in after.1 {
          RecordTouches(Readable(fits, before.0), name, ids, at, key);
          LogTouches(before.1, name, ids, at, Success(key, after.0[key]));
          assert ValueAt(after.0, key) == Some(after.0[key]);
        }
      }
    }
  }

  lemma {:induction false} AlwaysFromLog(fits: Values -> bool, runs: seq<Run>, n: nat)
    requires n <= |runs| && Sized(runs)
    ensures FromLog(AfterRuns(fits, runs, n).0, AfterRuns(fits, runs, n).1)
  {
    if n > 0 {
      AlwaysFromLog(fits, runs, n - 1);
      var before, r := AfterRuns(fits, runs, n - 1), runs[n - 1];
      RunKeepsFromLog(fits, r, |r.manifests|, before.0, before.1);
    }
  }

  // --------------------------------------------- spaced when everything works

  /** No run starts before a snapshot was retrieved in an earlier one. */
  ghost predicate ClockOrdered(runs: seq<Run>) {
    forall i, j, c, id: string | 0 <= i < j < |runs| && 0 <= c < |runs[i].attempts| && runs[i].attempts[c].Fetched? ::
      runs[i].attempts[c].at(id) <= runs[j].now
  }

  lemma {:induction false} LoggedWithin(fits: Values -> bool, r: Run, c: nat, stored: Values, log: seq<Success>,
                                        s: Success)
    requires SizedRun(r) && c <= |r.manifests| && s in Within(fits, r, c, stored, log).1 && s !in log
    ensures exists k :: 0 <= k < c && r.attempts[k].Fetched? && s.at == r.attempts[k].at(s.key.id)
  {
    if s !in Within(fits, r, c - 1, stored, log).1 {
      var ids := Selected(r.manifests[c - 1].name, r.manifests[c - 1].snapshots, true, Readable(fits, stored), r.now);
      LogTouches(Within(fits, r, c - 1, stored, log).1, r.manifests[c - 1].name, ids, r.attempts[c - 1].at, s);
    } else {
      LoggedWithin(fits, r, c - 1, stored, log, s);
    }
  }

  lemma {:induction false} LoggedEarlier(fits: Values -> bool, runs: seq<Run>, n: nat, m: nat, s: Success)
    requires Sized(runs) && ClockOrdered(runs) && n <= m < |runs| && s in AfterRuns(fits, runs, n).1
    ensures s.at <= runs[m].now
    decreases n
  {
    var before, r := AfterRuns(fits, runs, n - 1), runs[n - 1];
    if s in before.1 {
      LoggedEarlier(fits, runs, n - 1, m, s);
    } else {
      LoggedWithin(fits, r, |r.manifests|, before.0, before.1, s);
      var k :| 0 <= k < |r.manifests| && r.attempts[k].Fetched? && s.at == r.attempts[k].at(s.key.id);
    }
  }

  /** A written record over a readable state remembers, even when the clock stands still. */
  lemma WrittenRemembers(fits: Values -> bool, stored: Values, log: seq<Success>, name: string, ids: seq<string>,
                         at: string -> int)
    requires Remembers(stored, log) && fits(stored)
    requires forall key | key in stored && key.name == name && key.id in ids :: stored[key] <= at(key.id)
    ensures Remembers(Recorded(fits, stored, name, ids, at, true), LogAll(log, name, ids, at))
  {
    var after := Recorded(fits, stored, name, ids, at, true);
    forall s | s in LogAll(log, name, ids, at) ensures s.key in after && s.at <= after[s.key] {
      LogTouches(log, name, ids, at, s);
      RecordTouches(stored, name, ids, at, s.key);
    }
  }

  ghost predicate WorkingRun(fits: Values -> bool, runs: seq<Run>, i: nat, schedules: Key -> Option<Schedule>)
    requires Sized(runs) && i < |runs|
  {
    && OrderlyRun(runs[i], schedules) && (forall c | 0 <= c < |runs[i].written| :: runs[i].written[c])
    && forall c | 0 <= c <= |runs[i].manifests| :: fits(At(fits, runs, i, c).0)
  }

  /** What the state holds of a connector not yet reached is no later than the run. */
  lemma EntriesAreEarlier(fits: Values -> bool, runs: seq<Run>, i: nat, c: nat, key: Key)
    requires Sized(runs) && ClockOrdered(runs) && i < |runs| && c < |runs[i].manifests|
    requires ValidManifests(runs[i].manifests) && key in At(fits, runs, i, c).0 && key.name == runs[i].manifests[c].name
    ensures At(fits, runs, i, c).0[key] <= runs[i].now
  {
    var start, before := AfterRuns(fits, runs, i), At(fits, runs, i, c);
    AlwaysFromLog(fits, runs, i);
    RunKeepsFromLog(fits, runs[i], c, start.0, start.1);
    var s := Success(key, before.0[key]);
    LoggedBefore(fits, runs[i], c, c, start.0, start.1, s);
    LoggedEarlier(fits, runs, i, i, s);
  }

  lemma WorkingStepRemembers(fits: Values -> bool, runs: seq<Run>, i: nat, c: nat, schedules: Key -> Option<Schedule>)
    requires Sized(runs) && ClockOrdered(runs) && i < |runs| && c < |runs[i].manifests|
    requires WorkingRun(fits, runs, i, schedules) && Remembers(At(fits, runs, i, c).0, At(fits, runs, i, c).1)
    ensures Remembers(At(fits, runs, i, c + 1).0, At(fits, runs, i, c + 1).1)
  {
    var r, start, before := runs[i], AfterRuns(fits, runs, i), At(fits, runs, i, c);
    var name, ids := r.manifests[c].name, RecordedBy(fits, r, c, start.0);
    if ids != [] {
      forall key | key in before.0 && key.name == name && key.id in ids
          ensures before.0[key] <= r.attempts[c].at(key.id) {
        EntriesAreEarlier(fits, runs, i, c, key);
        assert r.attempts[c].at(key.id) >= r.now;
      }
      WrittenRemembers(fits, before.0, before.1, name, ids, r.attempts[c].at);
    }
  }

  lemma {:induction false} WorkingRunRemembers(fits: Values -> bool, runs: seq<Run>, i: nat, c: nat,
                                               schedules: Key -> Option<Schedule>)
    requires Sized(runs) && ClockOrdered(runs) && i < |runs| && c <= |runs[i].manifests|
    requires WorkingRun(fits, runs, i, schedules) && Remembers(AfterRuns(fits, runs, i).0, AfterRuns(fits, runs, i).1)
    ensures Remembers(At(fits, runs, i, c).0, At(fits, runs, i, c).1)
  {
    if c > 0 {
      WorkingRunRemembers(fits, runs, i, c - 1, schedules);
      WorkingStepRemembers(fits, runs, i, c - 1, schedules);
    }
  }

  ghost predicate AllWork(fits: Values -> bool, runs: seq<Run>, n: nat, schedules: Key -> Option<Schedule>)
    requires n <= |runs| && Sized(runs)
  {
    forall i | 0 <= i < n :: WorkingRun(fits, runs, i, schedules)
  }

  /** One more working run remembers what it adds, and adds nothing too early. */
  lemma WorkingRunIsSpaced(fits: Values -> bool, runs: seq<Run>, i: nat, schedules: Key -> Option<Schedule>)
    requires Sized(runs) && ClockOrdered(runs) && i < |runs| && WorkingRun(fits, runs, i, schedules)
    requires Remembers(AfterRuns(fits, runs, i).0, AfterRuns(fits, runs, i).1)
    requires Spaced(AfterRuns(fits, runs, i).1, schedules)
    ensures Remembers(AfterRuns(fits, runs, i + 1).0, AfterRuns(fits, runs, i + 1).1)
    ensures Spaced(AfterRuns(fits, runs, i + 1).1, schedules)
  {
    assert At(fits, runs, i, 0) == AfterRuns(fits, runs, i);
    assert fits(At(fits, runs, i, 0).0);
    OneMoreRunIsSpaced(fits, runs, i, schedules);
    WorkingRunRemembers(fits, runs, i, |runs[i].manifests|, schedules);
    OneMoreRun(fits, runs, i);
  }

  lemma {:induction false} WorkingRunsSpaced(fits: Values -> bool, runs: seq<Run>, n: nat,
                                             schedules: Key -> Option<Schedule>)
    requires n <= |runs| && Sized(runs) && ClockOrdered(runs) && AllWork(fits, runs, n, schedules)
    ensures Remembers(AfterRuns(fits, runs, n).0, AfterRuns(fits, runs, n).1)
    ensures Spaced(AfterRuns(fits, runs, n).1, schedules)
  {
    if n > 0 {
      WorkingRunsSpaced(fits, runs, n - 1, schedules);
      WorkingRunIsSpaced(fits, runs, n - 1, schedules);
    }
  }

  /** These are the configured snapshots. */
  ghost predicate Uses(r: Run, keys: set<Key>) {
    forall c, j | 0 <= c < |r.manifests| && 0 <= j < |r.manifests[c].snapshots| ::
      Key(r.manifests[c].name, r.manifests[c].snapshots[j].id) in keys
  }

  lemma {:induction false} StateStaysSmall(fits: Values -> bool, r: Run, c: nat, stored: Values, log: seq<Success>,
                                           keys: set<Key>)
    requires SizedRun(r) && ValidManifests(r.manifests) && Uses(r, keys) && c <= |r.manifests| && stored.Keys <= keys
    ensures Within(fits, r, c, stored, log).0.Keys <= keys
  {
    if c > 0 {
      StateStaysSmall(fits, r, c - 1, stored, log, keys);
      var before, m := Within(fits, r, c - 1, stored, log).0, r.manifests[c - 1];
      var ids := RecordedBy(fits, r, c - 1, stored);
      if ids != [] && r.written[c - 1] {
        SelectedDistinct(m.name, m.snapshots, true, Readable(fits, stored), r.now);
        forall key | key in Within(fits, r, c, stored, log).0 ensures key in keys {
          RecordTouches(Readable(fits, before), m.name, ids, r.attempts[c - 1].at, key);
          assert key == Key(key.name, key.id);
          assert key in before || (key.name == m.name && key.id in ids);
        }
      }
    }
  }

  lemma {:induction false} StatesStaySmall(fits: Values -> bool, runs: seq<Run>, n: nat, keys: set<Key>)
    requires n <= |runs| && Sized(runs)
    requires forall i | 0 <= i < n :: ValidManifests(runs[i].manifests) && Uses(runs[i], keys)
    ensures AfterRuns(fits, runs, n).0.Keys <= keys
  {
    if n > 0 {
      StatesStaySmall(fits, runs, n - 1, keys);
      var before, r := AfterRuns(fits, runs, n - 1), runs[n - 1];
      StateStaysSmall(fits, r, |r.manifests|, before.0, before.1, keys);
    }
  }

  /**
   MAIN: if every write works, every state over the configured snapshots can be read back and the
   clock does not go back, successes of a snapshot are at least one interval apart.
   */
  lemma SpacedWhenAllWorks(fits: Values -> bool, runs: seq<Run>, schedules: Key -> Option<Schedule>, keys: set<Key>)
    requires Sized(runs) && ClockOrdered(runs) && forall v: Values | v.Keys <= keys :: fits(v)
    requires forall i | 0 <= i < |runs| :: OrderlyRun(runs[i], schedules) && Uses(runs[i], keys)
    requires forall i, c | 0 <= i < |runs| && 0 <= c < |runs[i].written| :: runs[i].written[c]
    ensures Spaced(AfterRuns(fits, runs, |runs|).1, schedules)
  {
    forall i | 0 <= i < |runs| ensures WorkingRun(fits, runs, i, schedules) {
      StatesStaySmall(fits, runs, i, keys);
      forall c | 0 <= c <= |runs[i].manifests| ensures fits(At(fits, runs, i, c).0) {
        StateStaysSmall(fits, runs[i], c, AfterRuns(fits, runs, i).0, AfterRuns(fits, runs, i).1, keys);
      }
    }
    WorkingRunsSpaced(fits, runs, |runs|, schedules);
  }

  ghost predicate ForgetsNothing(fits: Values -> bool, runs: seq<Run>, i: nat, c: nat)
    requires Sized(runs) && i < |runs| && c < |runs[i].manifests|
  {
    KeepsMemory(fits, At(fits, runs, i, c).0, At(fits, runs, i, c).1, runs[i].manifests[c].name,
                RecordedBy(fits, runs[i], c, AfterRuns(fits, runs, i).0), runs[i].written[c])
  }

  lemma StepRemembersExactly(fits: Values -> bool, runs: seq<Run>, i: nat, c: nat, schedules: Key -> Option<Schedule>)
    requires Sized(runs) && i < |runs| && c < |runs[i].manifests|
    requires LaterRun(fits, runs, i, schedules)
    requires Remembers(At(fits, runs, i, c).0, At(fits, runs, i, c).1)
    ensures Remembers(At(fits, runs, i, c + 1).0, At(fits, runs, i, c + 1).1) <==> ForgetsNothing(fits, runs, i, c)
  {
    var r, start, before := runs[i], AfterRuns(fits, runs, i), At(fits, runs, i, c);
    var name, ids := r.manifests[c].name, RecordedBy(fits, r, c, start.0);
    if ids != [] {
      AlwaysFromLog(fits, runs, i);
      RunKeepsFromLog(fits, r, c, start.0, start.1);
      forall key | key in before.0 && key.name == name && key.id in ids
          ensures before.0[key] < r.attempts[c].at(key.id) {
        LoggedBefore(fits, r, c, c, start.0, start.1, Success(key, before.0[key]));
        assert r.attempts[c].at(key.id) >= r.now;
      }
      RecordRemembersExactly(fits, before.0, before.1, name, ids, r.attempts[c].at, r.written[c]);
    }
  }

  ghost predicate AlwaysRemembers(fits: Values -> bool, runs: seq<Run>, n: nat)
    requires n <= |runs| && Sized(runs)
  {
    forall i, c | 0 <= i < n && 0 <= c <= |runs[i].manifests| ::
        Remembers(At(fits, runs, i, c).0, At(fits, runs, i, c).1)
  }

  ghost predicate NothingForgotten(fits: Values -> bool, runs: seq<Run>, n: nat)
    requires n <= |runs| && Sized(runs)
  {
    forall i, c | 0 <= i < n && 0 <= c < |runs[i].manifests| :: ForgetsNothing(fits, runs, i, c)
  }

  lemma {:induction false} RemembersWithin(fits: Values -> bool, runs: seq<Run>, i: nat, c: nat,
                                           schedules: Key -> Option<Schedule>)
    requires Sized(runs) && i < |runs| && c <= |runs[i].manifests|
    requires LaterRun(fits, runs, i, schedules)
    requires Remembers(AfterRuns(fits, runs, i).0, AfterRuns(fits, runs, i).1)
    requires forall k | 0 <= k < c :: ForgetsNothing(fits, runs, i, k)
    ensures Remembers(At(fits, runs, i, c).0, At(fits, runs, i, c).1)
  {
    if c > 0 {
      RemembersWithin(fits, runs, i, c - 1, schedules);
      StepRemembersExactly(fits, runs, i, c - 1, schedules);
    }
  }

  lemma {:induction false} RemembersAfter(fits: Values -> bool, runs: seq<Run>, n: nat,
                                          schedules: Key -> Option<Schedule>)
    requires n <= |runs| && Sized(runs) && NothingForgotten(fits, runs, n)
    requires forall i | 0 <= i < n :: LaterRun(fits, runs, i, schedules)
    ensures Remembers(AfterRuns(fits, runs, n).0, AfterRuns(fits, runs, n).1)
  {
    if n > 0 {
      RemembersAfter(fits, runs, n - 1, schedules);
      RemembersWithin(fits, runs, n - 1, |runs[n - 1].manifests|, schedules);
      OneMoreRun(fits, runs, n - 1);
    }
  }

  /**
   MAIN: over any sequence of due-only runs, the state has every success in it at all times exactly
   when every record is written, over a state that could be read or that held nothing else.
   */
  lemma RemembersExactly(fits: Values -> bool, runs: seq<Run>, n: nat, schedules: Key -> Option<Schedule>)
    requires n <= |runs| && Sized(runs)
    requires forall i | 0 <= i < n :: LaterRun(fits, runs, i, schedules)
    ensures AlwaysRemembers(fits, runs, n) <==> NothingForgotten(fits, runs, n)
  {
    forall i, c | 0 <= i < n && 0 <= c < |runs[i].manifests|
      ensures AlwaysRemembers(fits, runs, n) ==> ForgetsNothing(fits, runs, i, c)
    {
      if AlwaysRemembers(fits, runs, n) {
        assert Remembers(At(fits, runs, i, c).0, At(fits, runs, i, c).1);
        assert Remembers(At(fits, runs, i, c + 1).0, At(fits, runs, i, c + 1).1);
        StepRemembersExactly(fits, runs, i, c, schedules);
      }
    }
    forall i, c | 0 <= i < n && 0 <= c <= |runs[i].manifests|
      ensures NothingForgotten(fits, runs, n) ==> Remembers(At(fits, runs, i, c).0, At(fits, runs, i, c).1)
    {
      if NothingForgotten(fits, runs, n) {
        RemembersAfter(fits, runs, i, schedules);
        RemembersWithin(fits, runs, i, c, schedules);
      }
    }
  }

  /**
   One unreadable state is enough: a run that records only `b` writes a small state without `a`, and
   `a` is due again at once although it was fetched a moment ago.
   */
  lemma ForgottenWhileReadable(a: Key, b: Key, fits: Values -> bool, now: int, schedules: Key -> Option<Schedule>)
    requires a.name != b.name && 0 < now < HOUR && schedules(a) == schedules(b) == Some(Hourly)
    requires !fits(map[a := 0, b := 0]) && fits(map[b := now])
    ensures var log := [Success(a, 0), Success(b, 0)];
            exists r: Run :: OrderlyRun(r, schedules) && r.now == now
                             && (var after := Within(fits, r, |r.manifests|, map[a := 0, b := 0], log);
                                 fits(after.0) && a !in after.0 && ForgetsRecent(after.0, after.1, schedules, now))
  {
    var stored, log := map[a := 0, b := 0], [Success(a, 0), Success(b, 0)];
    var snapshots := [Snapshot(b.id, Some(Hourly))];
    var r := Run([Manifest(b.name, snapshots)], now, [Fetched(_ => now)], [true]);
    assert b == Key(b.name, b.id) && snapshots[1..] == [];
    assert Selected(b.name, snapshots, true, map[], now) == [b.id];
    var after := Within(fits, r, 1, stored, log);
    assert Within(fits, r, 0, stored, log) == (stored, log);
    var at := r.attempts[0].at;
    LogOne(log, b.name, b.id, at);
    assert RecordAll(map[], b.name, [b.id][..0], at) == map[];
    assert RecordAll(map[], b.name, [b.id], at) == map[b := now];
    assert after.0 == map[b := now] && after.1 == log + [Success(b, now)];
    assert after.1[0] == Success(a, 0) && Success(a, 0) in after.1;
    assert IsDue(schedules(a), ValueAt(after.0, a), now);
  }

  // ---------------------------------------------------------- serialization

  type Nested = map<string, map<string, string>>

  predicate ValidName(s: string) {
    |s| <= 64 && Segments(s, {'-'})
  }

  /** `nested` groups the entries of `values` by connector, timestamps printed. */
  ghost predicate Groups(values: Values, nested: Nested, format: int -> string) {
    && (forall key | key in values ::
          key.name in nested && key.id in nested[key.name] && nested[key.name][key.id] == format(values[key]))
    && (forall name, id | name in nested && id in nested[name] :: Key(name, id) in values)
  }

  /** `setdefault` and assignment, entry by entry. */
  method SerializeState(values: Values, format: int -> string) returns (nested: Nested)
    ensures Groups(values, nested, format)
    ensures forall name | name in nested :: nested[name] != map[]
  {
    nested := map[];
    var rest := values.Keys;
    ghost var done: Values := map[];
    while rest != {}
      invariant rest <= values.Keys && forall key :: key in done <==> key in values && key !in rest
      invariant forall key | key in done :: done[key] == values[key]
      invariant Groups(done, nested, format)
      invariant forall name | name in nested :: nested[name] != map[]
      decreases rest
    {
      var key :| key in rest;
      var group := if key.name in nested then nested[key.name] else map[];
      group := group[key.id := format(values[key])];
      assert key.id in group;
      nested := nested[key.name := group];
      done := done[key := values[key]];
      rest := rest - {key};
    }
    assert done == values;
  }

  ghost predicate GroupParses(group: map<string, string>, parse: string -> Option<int>) {
    forall id | id in group :: ValidName(id) && parse(group[id]).Some?
  }

  ghost predicate AllParse(nested: Nested, parse: string -> Option<int>) {
    forall name | name in nested :: ValidName(name) && GroupParses(nested[name], parse)
  }

  method ParseGroup(name: string, group: map<string, string>, parse: string -> Option<int>, before: Values)
    returns (r: Option<Values>)
    ensures r.Some? <==> GroupParses(group, parse)
    ensures r.Some? ==> forall key ::
              ValueAt(r.value, key) == if key.name == name && key.id in group then parse(group[key.id])
                  else ValueAt(before, key)
  {
    var parsed := before;
    var rest := group.Keys;
    while rest != {}
      invariant rest <= group.Keys
      invariant forall id | id in group && id !in rest :: ValidName(id) && parse(group[id]).Some?
      invariant forall key :: ValueAt(parsed, key) ==
                  if key.name == name && key.id in group && key.id !in rest then parse(group[key.id])
                      else ValueAt(before, key)
      decreases rest
    {
      var id :| id in rest;
      if !ValidName(id) || parse(group[id]).None? {
        return None;
      }
      parsed := parsed[Key(name, id) := parse(group[id]).value];
      rest := rest - {id};
    }
    r := Some(parsed);
  }

  /** One bad name or timestamp makes the whole state unreadable. */
  method ParseState(nested: Nested, parse: string -> Option<int>) returns (r: Option<Values>)
    ensures r.Some? <==> AllParse(nested, parse)
    ensures r.Some? ==> forall key ::
              ValueAt(r.value, key) == if key.name in nested && key.id in nested[key.name]
                  then parse(nested[key.name][key.id]) else None
  {
    var parsed: Values := map[];
    var rest := nested.Keys;
    while rest != {}
      invariant rest <= nested.Keys
      invariant forall name | name in nested && name !in rest :: ValidName(name) && GroupParses(nested[name], parse)
      invariant forall key :: ValueAt(parsed, key) ==
                  if key.name in nested && key.name !in rest && key.id in nested[key.name]
                      then parse(nested[key.name][key.id]) else None
      decreases rest
    {
      var name :| name in rest;
      if !ValidName(name) {
        return None;
      }
      var group := ParseGroup(name, nested[name], parse, parsed);
      if group.None? {
        return None;
      }
      parsed := group.value;
      rest := rest - {name};
    }
    r := Some(parsed);
  }

  /** MAIN: what was saved is what is loaded, provided the names are valid and timestamps print and parse. */
  method SaveAndLoad(values: Values, format: int -> string, parse: string -> Option<int>) returns (r: Option<Values>)
    requires forall t: int :: parse(format(t)) == Some(t)
    ensures r.Some? <==> NamesValid(values)
    ensures r.Some? ==> r.value == values
  {
    var nested := SerializeState(values, format);
    GroupsParse(values, nested, format, parse);
    r := ParseState(nested, parse);
    if r.Some? {
      forall key ensures ValueAt(r.value, key) == ValueAt(values, key) {
        GroupedBack(values, nested, format, parse, key);
      }
      SameValues(r.value, values);
    }
  }

  lemma GroupedBack(values: Values, nested: Nested, format: int -> string, parse: string -> Option<int>, key: Key)
    requires Groups(values, nested, format) && forall t: int :: parse(format(t)) == Some(t)
    ensures ValueAt(values, key) == if key.name in nested && key.id in nested[key.name]
              then parse(nested[key.name][key.id]) else None
  {
    if key in values {
      var t := values[key];
      assert nested[key.name][key.id] == format(t) && parse(format(t)) == Some(t);
    } else {
      assert key == Key(key.name, key.id);
    }
  }

  ghost predicate NamesValid(values: Values) {
    forall key | key in values :: ValidName(key.name) && ValidName(key.id)
  }

  /** The grouped form parses exactly when every name in it is valid. */
  lemma GroupsParse(values: Values, nested: Nested, format: int -> string, parse: string -> Option<int>)
    requires Groups(values, nested, format) && forall t: int :: parse(format(t)) == Some(t)
    requires forall name | name in nested :: nested[name] != map[]
    ensures NamesValid(values) <==> AllParse(nested, parse)
  {
    forall name | name in nested ensures NamesValid(values) ==> ValidName(name) && GroupParses(nested[name], parse) {
      var id :| id in nested[name];
      assert Key(name, id) in values;
      forall other | other in nested[name] ensures NamesValid(values) ==>
          ValidName(other) && parse(nested[name][other]).Some? {
        GroupedBack(values, nested, format, parse, Key(name, other));
      }
    }
    if AllParse(nested, parse) {
      forall key | key in values ensures ValidName(key.name) && ValidName(key.id) {
        assert GroupParses(nested[key.name], parse);
      }
    }
  }

  lemma SameValues(a: Values, b: Values)
    requires forall key :: ValueAt(a, key) == ValueAt(b, key)
    ensures a == b
  {
    forall key ensures (key in a <==> key in b) && (key in a ==> a[key] == b[key]) {
      assert ValueAt(a, key) == ValueAt(b, key);
    }
  }
}
