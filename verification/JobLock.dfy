/**
 The single-thread worker of src/lib/worker/serverless-workers: one row of the job table is the
 lock shared by all instances of a worker. Time is counted in whole seconds.
 */
module JobLock {
  import opened Option

  datatype Status = Incomplete | Active | Locked | Deactivated

  /** The columns of a job row that the lock protocol reads or writes. A null `executorCount` is 0, which
      every test of the source treats alike. */
  datatype JobRow = JobRow(
    status: Status,
    executorCount: int,
    interval: string,
    lastRun: Option<int>,
    nextRun: Option<int>,
    timeout: Option<int>,
    retries: int,
    lastError: Option<string>,
    lastCompleted: Option<int>,
    lastFailed: Option<int>,
    lastDuration: Option<int>)

  /** The time fields a worker definition carries. The last four are assigned only when a run ends,
      and a field that was never assigned does not reach the row. */
  datatype Definition = Definition(
    interval: string,
    lastRun: Option<int>,
    nextRun: Option<int>,
    timeout: int,
    retries: int,
    lastError: Option<Option<string>>,
    lastCompleted: Option<int>,
    lastFailed: Option<int>,
    lastDuration: Option<int>)

  const DEFAULT_TIMEOUT: int := 900

  // ---------------------------------------------------------------- specification

  /** The row's timeout as a truth value: neither null nor 0. */
  predicate HasTimeout(row: JobRow) {
    row.timeout.Some? && row.timeout.value != 0
  }

  /** The guard of the takeover branch. */
  predicate Expired(row: JobRow, now: int) {
    row.lastRun.Some? && HasTimeout(row) && row.status == Locked && now - row.lastRun.value >= row.timeout.value
  }

  predicate Free(row: JobRow) {
    row.status == Active && row.executorCount < 1
  }

  predicate Admits(row: JobRow, now: int) {
    Expired(row, now) || Free(row)
  }

  /** When the alert handlers of the workers throw for a job that is busy: its last run should be over. */
  predicate Overdue(row: JobRow, now: int) {
    row.lastRun.Some? && row.lastRun.value + (if HasTimeout(row) then row.timeout.value else DEFAULT_TIMEOUT) < now
  }

  /** The row after an instance is let in. */
  function Acquire(row: JobRow, now: int): JobRow {
    if Expired(row, now) then
      row.(status := Locked, executorCount := 1, lastError := Some("TIMEOUT EXCEEDED"), lastFailed := row.nextRun)
    else
      row.(status := Locked, executorCount := if row.executorCount != 0 then row.executorCount + 1 else 1)
  }

  /** The row after an instance lets go. */
  function Release(row: JobRow): JobRow {
    row.(status := if row.status == Locked then Active else row.status,
         executorCount := if row.executorCount != 0 then row.executorCount - 1 else 0)
  }

  function DefinitionOf(row: JobRow): Definition {
    Definition(row.interval, row.lastRun, row.nextRun, if HasTimeout(row) then row.timeout.value else DEFAULT_TIMEOUT,
               row.retries, None, None, None, None)
  }

  function Started(d: Definition, now: int): Definition {
    d.(nextRun := Some(now + d.timeout), lastRun := Some(now), retries := d.retries + 1)
  }

  /** `cron` is what the interval yields after the last run, if it parses. */
  function NextRun(d: Definition, cron: Option<int>): Option<int> {
    if d.interval != "" then cron else None
  }

  function Elapsed(d: Definition, now: int): Option<int> {
    Some(now - if d.lastRun.Some? then d.lastRun.value else now)
  }

  function Completed(d: Definition, now: int, cron: Option<int>): Definition {
    d.(lastCompleted := Some(now), lastDuration := Elapsed(d, now), retries := 0, lastError := Some(None),
       nextRun := NextRun(d, cron))
  }

  function Failed(d: Definition, message: string, now: int, cron: Option<int>): Definition {
    d.(lastError := Some(Some(message)), lastFailed := Some(now), lastDuration := Elapsed(d, now),
       nextRun := NextRun(d, cron))
  }

  function Assigned<T>(field: Option<T>, column: Option<T>): Option<T> {
    if field.Some? then field else column
  }

  /** The row with the definition's fields copied over it; status and count stay as read. */
  function Merge(row: JobRow, d: Definition): JobRow {
    row.(interval := d.interval, lastRun := d.lastRun, nextRun := d.nextRun,
         timeout := Some(d.timeout), retries := d.retries,
         lastError := if d.lastError.Some? then d.lastError.value else row.lastError,
         lastCompleted := Assigned(d.lastCompleted, row.lastCompleted),
         lastFailed := Assigned(d.lastFailed, row.lastFailed),
         lastDuration := Assigned(d.lastDuration, row.lastDuration))
  }

  /** The scheduler's selection; adding a null timeout gives null, which is not before anything. */
  predicate Pending(row: JobRow, now: int) {
    && row.status in {Active, Locked}
    && row.nextRun.Some? && row.nextRun.value <= now
    && (row.lastRun.None? || row.lastRun.value <= row.nextRun.value
      || (row.timeout.Some? && row.lastRun.value + row.timeout.value < now))
  }

  // ---------------------------------------------------------------- the classes

  class WorkerDefinition {
    var interval: string
    var lastRun: Option<int>
    var nextRun: Option<int>
    var timeout: int
    var retries: int
    var lastError: Option<Option<string>>
    var lastCompleted: Option<int>
    var lastFailed: Option<int>
    var lastDuration: Option<int>

    function Fields(): Definition
      reads this
    {
      Definition(interval, lastRun, nextRun, timeout, retries, lastError, lastCompleted, lastFailed, lastDuration)
    }

    constructor (job: JobRow)
      ensures Fields() == DefinitionOf(job)
      ensures interval == job.interval && lastRun == job.lastRun && nextRun == job.nextRun && retries == job.retries
      ensures timeout == if job.timeout.Some? && job.timeout.value != 0 then job.timeout.value else 900
      ensures lastError == None && lastCompleted == None && lastFailed == None && lastDuration == None
    {
      interval, lastRun, nextRun := job.interval, job.lastRun, job.nextRun;
      timeout := if HasTimeout(job) then job.timeout.value else DEFAULT_TIMEOUT;
      retries := job.retries;
      lastError, lastCompleted, lastFailed, lastDuration := None, None, None, None;
    }

    method SetNextRun(cron: Option<int>)
      modifies this`nextRun
      ensures nextRun == NextRun(old(Fields()), cron)
      ensures interval == "" ==> nextRun == None
      ensures interval != "" ==> nextRun == cron
    {
      if interval != "" { nextRun := cron; } else { nextRun := None; }
    }

    method SetStarted(now: int)
      modifies this`nextRun, this`lastRun, this`retries
      ensures Fields() == Started(old(Fields()), now)
      ensures lastRun == Some(now) && nextRun == Some(now + timeout) && retries == old(retries) + 1
    {
      nextRun := Some(now + timeout);
      lastRun := Some(now);
      retries := retries + 1;
    }

    method SetCompleted(now: int, cron: Option<int>)
      modifies this
      ensures Fields() == Completed(old(Fields()), now, cron)
      ensures lastCompleted == Some(now) && retries == 0 && lastError == Some(None)
      ensures interval == "" ==> nextRun == None
      ensures interval != "" ==> nextRun == cron
      ensures lastRun.Some? ==> lastDuration == Some(now - lastRun.value)
      ensures lastRun.None? ==> lastDuration == Some(0)
      ensures interval == old(interval) && lastRun == old(lastRun) && timeout == old(timeout)
              && lastFailed == old(lastFailed)
    {
      lastCompleted := Some(now);
      lastDuration := Elapsed(Fields(), now);
      retries := 0;
      lastError := Some(None);
      SetNextRun(cron);
    }

    method SetFailed(message: string, now: int, cron: Option<int>)
      modifies this
      ensures Fields() == Failed(old(Fields()), message, now, cron)
      ensures lastFailed == Some(now) && lastError == Some(Some(message))
      ensures interval == "" ==> nextRun == None
      ensures interval != "" ==> nextRun == cron
      ensures lastRun.Some? ==> lastDuration == Some(now - lastRun.value)
      ensures lastRun.None? ==> lastDuration == Some(0)
      ensures interval == old(interval) && lastRun == old(lastRun) && timeout == old(timeout)
              && retries == old(retries) && lastCompleted == old(lastCompleted)
    {
      lastError := Some(Some(message));
      lastFailed := Some(now);
      lastDuration := Elapsed(Fields(), now);
      SetNextRun(cron);
    }
  }

  /** The job's row in the database; none when the job is not defined. */
  class JobTable {
    var row: Option<JobRow>
  }

  /** How `before` ends: let in, turned away quietly, or turned away with an exception. */
  datatype Outcome = Accepted | Refused | Raised

  class SingleThreadWorker {
    var job: Option<JobRow>
    var shouldRunJob: bool
    var def: WorkerDefinition

    constructor (given: WorkerDefinition)
      ensures shouldRunJob && def == given && job == None
    {
      job, shouldRunJob, def := None, true, given;
    }

    method CheckLockedStatus(now: int) returns (outcome: Outcome)
      modifies this`job
      ensures outcome == Accepted <==> old(job).Some? && Admits(old(job).value, now)
      ensures outcome == Accepted <==>
                old(job).Some? && var row := old(job).value;
                || (row.status == Active && row.executorCount < 1)
                || (row.status == Locked && row.lastRun.Some? && row.timeout.Some? && row.timeout.value != 0
                    && row.lastRun.value + row.timeout.value <= now)
      ensures outcome == Raised <==>
                old(job).None? || var row := old(job).value;
                && !Admits(row, now)
                && ((row.status != Locked && row.executorCount < 1)
                    || (row.lastRun.Some? && now - row.lastRun.value >
                          if row.timeout.Some? && row.timeout.value != 0 then row.timeout.value else 900))
      ensures outcome == Accepted && Expired(old(job).value, now) ==>
                job == Some(old(job).value.(executorCount := 0, lastError := Some("TIMEOUT EXCEEDED"),
                                            lastFailed := old(job).value.nextRun))
      ensures outcome != Accepted || !Expired(old(job).value, now) ==> job == old(job)
    {
      if job.None? {
        return Raised;
      }
      var row := job.value;
      if row.lastRun.Some? && HasTimeout(row) && row.status == Locked && now - row.lastRun.value >= row.timeout.value {
        job := Some(row.(executorCount := 0, lastError := Some("TIMEOUT EXCEEDED"), lastFailed := row.nextRun));
        return Accepted;
      }
      if row.executorCount >= 1 || row.status == Locked {
        return if Overdue(row, now) then Raised else Refused;
      }
      if row.status != Active {
        return Raised;
      }
      return Accepted;
    }

    /** One transaction on the locked row: an instance that is not let in leaves it as it was. */
    method Before(table: JobTable, now: int) returns (outcome: Outcome)
      modifies this, table
      ensures outcome == Accepted <==> old(table.row).Some? && Admits(old(table.row).value, now)
      ensures outcome == Accepted ==>
                && table.row == Some(Acquire(old(table.row).value, now))
                && (if old(table.row).value.status == Locked
                    then table.row == Some(old(table.row).value.(executorCount := 1,
                           lastError := Some("TIMEOUT EXCEEDED"), lastFailed := old(table.row).value.nextRun))
                    else table.row == Some(old(table.row).value.(status := Locked,
                           executorCount := if old(table.row).value.executorCount == 0 then 1
                                            else old(table.row).value.executorCount + 1)))
                && job == table.row && shouldRunJob
                && fresh(def) && def.Fields() == DefinitionOf(table.row.value)
      ensures outcome != Accepted ==> table.row == old(table.row) && def == old(def)
      ensures outcome == Refused ==> !shouldRunJob
    {
      job := table.row;
      outcome := CheckLockedStatus(now);
      if outcome != Accepted {
        if outcome == Refused { shouldRunJob := false; }
        return;
      }
      shouldRunJob := true;
      var count := job.value.executorCount;
      job := Some(job.value.(executorCount := if count != 0 then count + 1 else 1, status := Locked));
      def := new WorkerDefinition(job.value);
      table.row := job;
    }

    /** First half of `updateWorkerDefinition`: the row is read and the definition's fields are copied over
        it. Status and executor count stay those of the row that was read, and a field that the definition
        never assigned stays as the column has it. */
    method LoadDefinition(table: JobTable)
      modifies this`job
      ensures job.Some? <==> table.row.Some?
      ensures job.Some? ==>
                && job.value.status == table.row.value.status
                && job.value.executorCount == table.row.value.executorCount
                && job.value.interval == def.interval && job.value.lastRun == def.lastRun
                && job.value.nextRun == def.nextRun
                && job.value.timeout == Some(def.timeout) && job.value.retries == def.retries
      ensures job.Some? ==>
                && (def.lastError.Some? ==> job.value.lastError == def.lastError.value)
                && (def.lastError.None? ==> job.value.lastError == table.row.value.lastError)
                && (def.lastCompleted.Some? ==> job.value.lastCompleted == def.lastCompleted)
                && (def.lastCompleted.None? ==> job.value.lastCompleted == table.row.value.lastCompleted)
                && (def.lastFailed.Some? ==> job.value.lastFailed == def.lastFailed)
                && (def.lastFailed.None? ==> job.value.lastFailed == table.row.value.lastFailed)
                && (def.lastDuration.Some? ==> job.value.lastDuration == def.lastDuration)
                && (def.lastDuration.None? ==> job.value.lastDuration == table.row.value.lastDuration)
    {
      job := table.row;
      if job.None? { return; }
      var row := job.value.(interval := def.interval, lastRun := def.lastRun, nextRun := def.nextRun,
                            timeout := Some(def.timeout), retries := def.retries);
      if def.lastError.Some? { row := row.(lastError := def.lastError.value); }
      if def.lastCompleted.Some? { row := row.(lastCompleted := def.lastCompleted); }
      if def.lastFailed.Some? { row := row.(lastFailed := def.lastFailed); }
      if def.lastDuration.Some? { row := row.(lastDuration := def.lastDuration); }
      job := Some(row);
    }

    /** Second half, and the end of `updateJobState`: every column is written back. */
    method SaveJob(table: JobTable)
      modifies table
      ensures table.row == if job.Some? && old(table.row).Some? then job else old(table.row)
    {
      if job.Some? && table.row.Some? { table.row := job; }
    }

    method UpdateOnStarted(table: JobTable, now: int)
      modifies this`job, def, table
      ensures def.Fields() == Started(old(def.Fields()), now)
      ensures table.row == if shouldRunJob && old(table.row).Some?
                           then Some(Merge(old(table.row).value, Started(old(def.Fields()), now))) else old(table.row)
      ensures shouldRunJob && old(table.row).Some? ==> job == table.row
      ensures !shouldRunJob ==> job == old(job)
    {
      def.SetStarted(now);
      if shouldRunJob {
        LoadDefinition(table);
        SaveJob(table);
      }
    }

    /** First half of `updateJobState`. */
    method LoadRelease(table: JobTable)
      modifies this`job
      ensures job == if old(job).Some? && table.row.Some? then Some(Release(table.row.value)) else None
      ensures job.Some? && table.row.value.status == Locked && table.row.value.executorCount != 0 ==>
                job == Some(table.row.value.(status := Active, executorCount := table.row.value.executorCount - 1))
    {
      if job.Some? {
        job := table.row;
        if job.Some? {
          var count := job.value.executorCount;
          job := Some(job.value.(status := if job.value.status == Locked then Active else job.value.status,
                                 executorCount := if count != 0 then count - 1 else 0));
        }
      }
    }

    method OnSuccess(table: JobTable)
      modifies this`job, table
      ensures table.row == if shouldRunJob && old(job).Some? && old(table.row).Some?
                           then Some(Release(old(table.row).value)) else old(table.row)
    {
      if !shouldRunJob { return; }
      LoadRelease(table);
      SaveJob(table);
    }

    method UpdateOnCompleted(table: JobTable, now: int, cron: Option<int>)
      modifies this`job, def, table
      ensures table.row == if shouldRunJob && old(table.row).Some?
                           then Some(Merge(old(table.row).value, Completed(old(def.Fields()), now, cron)))
                           else old(table.row)
    {
      def.SetCompleted(now, cron);
      if shouldRunJob {
        LoadDefinition(table);
        SaveJob(table);
      }
    }

    /** One undisturbed `run`. An exception in `execute` reaches `onError`, which throws again before
        the definition is updated, so a failed run leaves the row as `updateOnStarted` wrote it. */
    method Run(table: JobTable, begin: int, end: int, cron: Option<int>, fails: bool) returns (threw: bool)
      requires shouldRunJob
      modifies this, table, def
      ensures old(table.row).Some? && Admits(old(table.row).value, begin) ==>
                var locked := Acquire(old(table.row).value, begin);
                var started := Merge(locked, Started(DefinitionOf(locked), begin));
                && threw == fails
                && table.row == Some(if fails then started else
                                     Merge(Release(started),
                                       Completed(Started(DefinitionOf(locked), begin), end, cron)))
      ensures old(table.row).Some? && Admits(old(table.row).value, begin) && !fails ==>
                table.row.Some? && var was, row := old(table.row).value, table.row.value;
                && row.status == Active && (was.status == Locked || was.executorCount == 0 ==> row.executorCount == 0)
                && row.interval == was.interval && row.lastRun == Some(begin) && row.lastCompleted == Some(end)
                && row.lastDuration == Some(end - begin) && row.retries == 0 && row.lastError == None
                && row.nextRun == (if was.interval == "" then None else cron)
      ensures old(table.row).Some? && Admits(old(table.row).value, begin) && fails ==>
                table.row.Some? && var was, row := old(table.row).value, table.row.value;
                && row.status == Locked && row.lastRun == Some(begin) && row.lastCompleted == was.lastCompleted
                && row.timeout.Some? && row.nextRun == Some(begin + row.timeout.value)
                && row.retries == was.retries + 1
      ensures !(old(table.row).Some? && Admits(old(table.row).value, begin)) ==> table.row == old(table.row)
    {
      var outcome := Before(table, begin);
      if outcome == Raised { return true; }
      UpdateOnStarted(table, begin);
      if shouldRunJob && fails { return true; }
      OnSuccess(table);
      UpdateOnCompleted(table, end, cron);
      threw := false;
    }
  }
}
