/**
 Any number of instances of one single-thread worker, interleaved in every way the database
 allows: `before` is one transaction on the locked row, every later update of the row is a plain
 read followed by a plain write, and an instance may fail or die between any two steps.
 */
module LockProtocol {
  import opened Option
  import opened JobLock

  /** Where an instance stands. An `image` is the row it has read, changed and not yet written. */
  datatype Phase =
    | Admitted(def: Definition)
    | StartLoaded(def: Definition, image: JobRow)
    | Executing(def: Definition)
    | ReleaseLoaded(def: Definition, image: JobRow)
    | Released(def: Definition)
    | DoneLoaded(def: Definition, image: JobRow)

  /** Instances that were turned away, finished, failed or died are not in `live`. */
  datatype State = State(row: JobRow, now: int, live: map<nat, Phase>)

  datatype Step =
    | Before(id: nat)
    | LoadStart(id: nat)
    | StoreStart(id: nat)
    | LoadRelease(id: nat)
    | StoreRelease(id: nat)
    | LoadDone(id: nat, cron: Option<int>)
    | StoreDone(id: nat)
    | Stop(id: nat)
    | Tick(seconds: nat)

  predicate Enabled(s: State, e: Step) {
    match e
    case Before(i) => i !in s.live
    case LoadStart(i) => i in s.live && s.live[i].Admitted?
    case StoreStart(i) => i in s.live && s.live[i].StartLoaded?
    case LoadRelease(i) => i in s.live && s.live[i].Executing?
    case StoreRelease(i) => i in s.live && s.live[i].ReleaseLoaded?
    case LoadDone(i, _) => i in s.live && s.live[i].Released?
    case StoreDone(i) => i in s.live && s.live[i].DoneLoaded?
    case Stop(i) => i in s.live
    case Tick(_) => true
  }

  function Next(s: State, e: Step): State
    requires Enabled(s, e)
  {
    match e
    case Before(i) =>
      if Admits(s.row, s.now) then
        var row := Acquire(s.row, s.now);
        s.(row := row, live := s.live[i := Admitted(DefinitionOf(row))])
      else s
    case LoadStart(i) =>
      var def := Started(s.live[i].def, s.now);
      s.(live := s.live[i := StartLoaded(def, Merge(s.row, def))])
    case StoreStart(i) => s.(row := s.live[i].image, live := s.live[i := Executing(s.live[i].def)])
    case LoadRelease(i) => s.(live := s.live[i := ReleaseLoaded(s.live[i].def, Release(s.row))])
    case StoreRelease(i) => s.(row := s.live[i].image, live := s.live[i := Released(s.live[i].def)])
    case LoadDone(i, cron) =>
      s.(live := s.live[i := DoneLoaded(s.live[i].def, Merge(s.row, Completed(s.live[i].def, s.now, cron)))])
    case StoreDone(i) => s.(row := s.live[i].image, live := s.live - {i})
    case Stop(i) => s.(live := s.live - {i})
    case Tick(d) => s.(now := s.now + d)
  }

  /** The instance has taken its start time and has not let go of the job. */
  predicate Running(p: Phase) {
    p.StartLoaded? || p.Executing? || p.ReleaseLoaded?
  }

  /** The side conditions on a step: a run ends within its timeout; while an instance is between
      `before` and the end of `updateOnStarted`, no other instance finds the previous run expired;
      while one is between the release and the end of `updateOnCompleted`, no other instance starts. */
  predicate Orderly(s: State, e: Step) {
    match e
    case Tick(d) => forall i :: i in s.live && Running(s.live[i]) ==>
                      s.live[i].def.lastRun.Some? && s.now + d < s.live[i].def.lastRun.value + s.live[i].def.timeout
    case Before(_) => forall i :: i in s.live ==>
                        && (s.live[i].Admitted? || s.live[i].StartLoaded? ==> !Expired(s.row, s.now))
                        && !s.live[i].Released? && !s.live[i].DoneLoaded?
    case _ => true
  }

  predicate ValidRun(s: State, run: seq<Step>)
    decreases |run|
  {
    run == [] || (Enabled(s, run[0]) && Orderly(s, run[0]) && ValidRun(Next(s, run[0]), run[1..]))
  }

  function Final(s: State, run: seq<Step>): State
    requires ValidRun(s, run)
    decreases |run|
  {
    if run == [] then s else Final(Next(s, run[0]), run[1..])
  }

  /** No negative timeout. */
  predicate Bounded(row: JobRow) {
    row.timeout.Some? ==> row.timeout.value >= 0
  }

  /** A freshly defined job: active, no executor, never or at some time run. */
  predicate Initial(s: State) {
    s.live == map[] && s.row.status == Active && s.row.executorCount == 0 && Bounded(s.row)
  }

  // ---------------------------------------------------------------- the invariant

  predicate LockedRow(row: JobRow) {
    row.status == Locked && row.executorCount == 1
  }

  predicate OpenRow(row: JobRow) {
    row.status == Active && row.executorCount == 0
  }

  /** The row records the start of this run. */
  predicate Records(row: JobRow, def: Definition) {
    && def.lastRun.Some? && def.timeout > 0
    && row.lastRun == def.lastRun && row.timeout == Some(def.timeout)
    && row.nextRun == Some(def.lastRun.value + def.timeout)
  }

  predicate Consistent(row: JobRow, now: int, p: Phase) {
    match p
    case Admitted(def) => LockedRow(row) && def.timeout > 0
    case StartLoaded(def, image) =>
      LockedRow(row) && LockedRow(image) && Records(image, def) && now < def.lastRun.value + def.timeout
    case Executing(def) => LockedRow(row) && Records(row, def) && now < def.lastRun.value + def.timeout
    case ReleaseLoaded(def, image) =>
      LockedRow(row) && Records(row, def) && now < def.lastRun.value + def.timeout && OpenRow(image)
        && Records(image, def)
    case Released(def) => OpenRow(row) && Records(row, def)
    case DoneLoaded(def, image) =>
      OpenRow(row) && Records(row, def) && OpenRow(image) && image.timeout == Some(def.timeout)
  }

  predicate Inv(s: State) {
    && Bounded(s.row)
    && (LockedRow(s.row) || OpenRow(s.row))
    && (forall i, j :: i in s.live && j in s.live ==> i == j)
    && (forall i :: i in s.live ==> Consistent(s.row, s.now, s.live[i]))
  }

  lemma InvStep(s: State, e: Step)
    requires Inv(s) && Enabled(s, e) && Orderly(s, e)
    ensures Inv(Next(s, e))
  {
    var t := Next(s, e);
    if e.Before? && s.live != map[] {
      var i :| i in s.live;
      assert Consistent(s.row, s.now, s.live[i]);
    }
  }

  lemma {:induction false} InvRun(s: State, run: seq<Step>)
    requires Inv(s) && ValidRun(s, run)
    ensures Inv(Final(s, run))
    decreases |run|
  {
    if run == [] {
    } else {
      InvStep(s, run[0]);
      InvRun(Next(s, run[0]), run[1..]);
    }
  }

  /** Safety over every orderly run: at most one instance executes, the row is LOCKED exactly when
      its executor count is 1 and ACTIVE exactly when it is 0, and an executing job is not pending. */
  lemma MutualExclusion(s: State, run: seq<Step>)
    requires Initial(s) && ValidRun(s, run)
    ensures var t := Final(s, run);
            && (forall i, j :: i in t.live && j in t.live && t.live[i].Executing? && t.live[j].Executing? ==> i == j)
            && (t.row.status == Locked <==> t.row.executorCount == 1)
            && (t.row.status == Active <==> t.row.executorCount == 0)
            && (forall i :: i in t.live && t.live[i].Executing? ==> t.row.status == Locked && !Pending(t.row, t.now))
  {
    InvRun(s, run);
  }

  // ---------------------------------------------------------------- why the conditions are needed

  /** The state after a list of steps, side conditions aside; none when a step is not possible. */
  function Perform(s: State, run: seq<Step>): Option<State>
    decreases |run|
  {
    if run == [] then Some(s)
    else if Enabled(s, run[0]) then Perform(Next(s, run[0]), run[1..]) else None
  }

  predicate BothExecute(s: State, i: nat, j: nat) {
    i != j && i in s.live && j in s.live && s.live[i].Executing? && s.live[j].Executing?
  }

  lemma First(s: State, e: Step, rest: seq<Step>)
    requires Enabled(s, e)
    ensures Perform(s, [e] + rest) == Perform(Next(s, e), rest)
  {
    assert ([e] + rest)[1..] == rest;
  }

  /** An admitted instance can record its start whatever the others do in between. */
  lemma Starts(s: State, i: nat, rest: seq<Step>) returns (t: State)
    requires i in s.live && s.live[i].Admitted?
    ensures t.now == s.now && t.live.Keys == s.live.Keys && t.live[i].Executing?
    ensures forall j :: j in s.live && j != i ==> t.live[j] == s.live[j]
    ensures t.row == Merge(s.row, Started(s.live[i].def, s.now)) && t.live[i].def == Started(s.live[i].def, s.now)
    ensures t == StartedState(s, i) && Perform(s, [LoadStart(i)] + ([StoreStart(i)] + rest)) == Perform(t, rest)
  {
    var u := Next(s, LoadStart(i));
    First(s, LoadStart(i), [StoreStart(i)] + rest);
    t := Next(u, StoreStart(i));
    First(u, StoreStart(i), rest);
  }

  /** Start window: while one instance is admitted and has not recorded its start, a second one is
      let in exactly when the run recorded before has expired, and then both can execute. */
  lemma StartWindow(s: State, i: nat, j: nat) returns (run: seq<Step>)
    requires Inv(s) && i in s.live && s.live[i].Admitted? && j !in s.live
    ensures j in Next(s, Before(j)).live <==> Expired(s.row, s.now)
    ensures Expired(s.row, s.now) ==> Perform(s, run).Some? && BothExecute(Perform(s, run).value, i, j)
  {
    assert Consistent(s.row, s.now, s.live[i]);
    run := [];
    if Expired(s.row, s.now) {
      var s1 := Next(s, Before(j));
      var s2 := Starts(s1, i, [LoadStart(j)] + ([StoreStart(j)] + []));
      var s3 := Starts(s2, j, []);
      run := [LoadStart(i)] + ([StoreStart(i)] + ([LoadStart(j)] + ([StoreStart(j)] + [])));
      First(s, Before(j), run);
      run := [Before(j)] + run;
    }
  }

  /** A released instance can record its completion, and time can pass. */
  lemma Finishes(s: State, i: nat, cron: Option<int>, wait: nat) returns (run: seq<Step>, t: State)
    requires i in s.live && s.live[i].Released?
    ensures Perform(s, run) == Some(t)
    ensures t.now == s.now + wait && t.live == s.live - {i}
    ensures t.row == Merge(s.row, Completed(s.live[i].def, s.now, cron))
  {
    var u := Next(s, LoadDone(i, cron));
    var v := Next(u, StoreDone(i));
    t := Next(v, Tick(wait));
    run := [LoadDone(i, cron)] + ([StoreDone(i)] + ([Tick(wait)] + []));
    First(s, LoadDone(i, cron), [StoreDone(i)] + ([Tick(wait)] + []));
    First(u, StoreDone(i), [Tick(wait)] + []);
    First(v, Tick(wait), []);
  }

  /** An instance that is let in while another executes comes to execute beside it. */
  lemma ExecutesBeside(s: State, j: nat, k: nat)
    requires j in s.live && s.live[j].Executing? && k !in s.live && k in Next(s, Before(k)).live
    ensures exists more :: Perform(s, more).Some? && BothExecute(Perform(s, more).value, j, k)
  {
    var more := [LoadStart(k)] + ([StoreStart(k)] + []);
    First(s, Before(k), more);
    var last := Starts(Next(s, Before(k)), k, []);
    assert BothExecute(Perform(s, [Before(k)] + more).value, j, k);
  }

  /** Finish window: a second instance that starts after the release is overwritten by the first
      one's completion, and from then on a third is let in exactly when the FIRST run's timeout is
      over, however long the second one has left. */
  lemma FinishWindow(s: State, i: nat, j: nat, k: nat, cron: Option<int>, wait: nat) returns (run: seq<Step>, t: State)
    requires Inv(s) && i in s.live && s.live[i].Released? && j !in s.live && k !in s.live && j != k
    ensures Perform(s, run) == Some(t)
    ensures t.now == s.now + wait && j in t.live && t.live[j].Executing?
    ensures t.live[j].def.lastRun == Some(s.now) && k !in t.live
    ensures k in Next(t, Before(k)).live <==> t.now >= s.live[i].def.lastRun.value + s.live[i].def.timeout
    ensures k in Next(t, Before(k)).live ==>
              exists more :: Perform(t, more).Some? && BothExecute(Perform(t, more).value, j, k)
  {
    hide Perform;
    assert Consistent(s.row, s.now, s.live[i]);
    var s1 := Next(s, Before(j));
    var s2 := StartedState(s1, j);
    var finish;
    finish, t := Finishes(s2, i, cron, wait);
    run := [Before(j)] + ([LoadStart(j)] + ([StoreStart(j)] + finish));
    First(s, Before(j), [LoadStart(j)] + ([StoreStart(j)] + finish));
    var s3 := Starts(s1, j, finish);
    if k in Next(t, Before(k)).live { ExecutesBeside(t, j, k); }
  }

  /** The state in which an admitted instance has recorded its start. */
  function StartedState(s: State, i: nat): (t: State)
    requires i in s.live && s.live[i].Admitted?
  {
    Next(Next(s, LoadStart(i)), StoreStart(i))
  }

  /** The same window with the completion already read: its write opens the row at once. */
  lemma LostLock(s: State, i: nat, j: nat, k: nat) returns (run: seq<Step>)
    requires Inv(s) && i in s.live && s.live[i].DoneLoaded? && j !in s.live && k !in s.live && j != k
    ensures Perform(s, run).Some? && BothExecute(Perform(s, run).value, j, k)
  {
    assert Consistent(s.row, s.now, s.live[i]);
    var third := [LoadStart(k)] + ([StoreStart(k)] + []);
    var after := [StoreDone(i)] + ([Before(k)] + third);
    var s1 := Next(s, Before(j));
    First(s, Before(j), [LoadStart(j)] + ([StoreStart(j)] + after));
    var s2 := Starts(s1, j, after);
    var s3 := Next(s2, StoreDone(i));
    First(s2, StoreDone(i), [Before(k)] + third);
    var s4 := Next(s3, Before(k));
    First(s3, Before(k), third);
    var s5 := Starts(s4, k, []);
    run := [Before(j)] + ([LoadStart(j)] + ([StoreStart(j)] + after));
  }

  /** A run that outlives its timeout: another instance is let in from that second on. */
  lemma OverrunWindow(s: State, i: nat, j: nat, wait: nat)
    requires Inv(s) && i in s.live && s.live[i].Executing? && j !in s.live
    ensures var t := Next(s, Tick(wait));
            j in Next(t, Before(j)).live <==> t.now >= s.live[i].def.lastRun.value + s.live[i].def.timeout
  {
    assert Consistent(s.row, s.now, s.live[i]);
  }

  // ---------------------------------------------------------------- failed jobs come back

  /** A run that fails or dies after its start was recorded leaves the row LOCKED; the scheduler
      selects the job, and the takeover branch lets an instance in, from the very second the timeout
      is over and not before. */
  lemma FailedJobComesBack(s: State, i: nat)
    requires Inv(s) && i in s.live && (s.live[i].Executing? || s.live[i].ReleaseLoaded?)
    ensures var row := Next(s, Stop(i)).row;
            && row.status == Locked && s.live[i].def.lastRun.Some?
            && forall now :: (Pending(row, now) <==> now >= s.live[i].def.lastRun.value + s.live[i].def.timeout)
                          && (Admits(row, now) <==> Pending(row, now))
  {
    assert Consistent(s.row, s.now, s.live[i]);
  }

  /** A run that dies after its release and before its completion is recorded leaves the row ACTIVE with
      the next run at the timeout: the job is not selected before that second and is from then on, but an
      instance that asks is let in at once. */
  lemma ReleasedJobComesBack(s: State, i: nat)
    requires Inv(s) && i in s.live && (s.live[i].Released? || s.live[i].DoneLoaded?)
    ensures var row := Next(s, Stop(i)).row;
            && row.status == Active && row.executorCount == 0 && s.live[i].def.lastRun.Some?
            && forall now :: (Pending(row, now) <==> now >= s.live[i].def.lastRun.value + s.live[i].def.timeout)
                          && Admits(row, now)
  {
    assert Consistent(s.row, s.now, s.live[i]);
  }

  /** A run that succeeds: whatever happens between the read and the write of its completion, the row it
      leaves is open, without error and retries. With an interval that yields a time the job is selected
      from that time on, or, if that lies before its last run, once the timeout is over too; an instance is
      let in at any time. Without an interval, or when it yields nothing, it is never selected again. */
  lemma CompletedJobComesBack(s: State, i: nat, cron: Option<int>, t: State)
    requires Inv(s) && i in s.live && s.live[i].Released?
    requires i in t.live && t.live[i] == Next(s, LoadDone(i, cron)).live[i]
    ensures var row, def := Next(t, StoreDone(i)).row, s.live[i].def;
            && i !in Next(t, StoreDone(i)).live
            && row.status == Active && row.executorCount == 0 && row.retries == 0 && row.lastError == None
            && def.lastRun.Some? && row.lastRun == def.lastRun && row.interval == def.interval
            && row.lastCompleted == Some(s.now) && row.lastDuration == Some(s.now - def.lastRun.value)
            && (forall now :: Admits(row, now))
            && (def.interval == "" || cron == None ==> forall now :: !Pending(row, now))
            && (def.interval != "" && cron.Some? ==> forall now ::
                  Pending(row, now) <==> cron.value <= now
                                         && (def.lastRun.value <= cron.value
                                             || def.lastRun.value + def.timeout < now))
  {
    assert Consistent(s.row, s.now, s.live[i]);
  }

  /** The interval of an instance is its row's when it was let in. */
  lemma KeepsInterval(s: State, i: nat)
    requires i !in s.live && Admits(s.row, s.now)
    ensures var t := Next(s, Before(i));
            && i in t.live && t.live[i].def.interval == s.row.interval
            && Next(t, LoadStart(i)).live[i].def.interval == s.row.interval
            && t.row.status == Locked && t.live[i].def.retries == s.row.retries
  {}

  /** An instance that dies between `before` and the record of its start leaves a LOCKED row that no
      instance can ever take again exactly when the job has no recorded run or no timeout. */
  lemma StuckExactlyWhenNeverStarted(s: State, i: nat)
    requires Inv(s) && i in s.live && (s.live[i].Admitted? || s.live[i].StartLoaded?)
    ensures var row := Next(s, Stop(i)).row;
            (forall now :: !Admits(row, now)) <==> row.lastRun.None? || !HasTimeout(row)
  {
    assert Consistent(s.row, s.now, s.live[i]);
    var row := Next(s, Stop(i)).row;
    if row.lastRun.Some? && HasTimeout(row) {
      assert Admits(row, row.lastRun.value + row.timeout.value);
    }
  }
}
