/**
 * The asynchronous log export of `LogService`: a job store mapping job ids
 * to a status and, once the job is done, to the result file. Submitting a
 * job records PROCESSING and queues a worker task; a worker run filters the
 * log and writes the result file, then records READY or ERROR; polling and
 * download read the store. Concurrency is replaced by an interleaving of
 * whole steps: a worker run is one atomic step on the store.
 */
module LogService {
  import opened Common
  import opened Seqs
  import opened Strings
  import opened LogFiles

  type JobId = string

  /** Job statuses. Unknown (reported as NOT_FOUND) is the polling default and is never stored. */
  datatype Status = Processing | Ready | Error | Unknown

  /** The strings the service stores and returns for each status. */
  function StatusName(st: Status): string {
    match st
    case Processing => "PROCESSING"
    case Ready => "READY"
    case Error => "ERROR"
    case Unknown => "NOT_FOUND"
  }

  predicate IsTerminal(st: Status) { st == Ready || st == Error }

  /** The id a submission at `millis` milliseconds since the epoch gets. */
  function CreateJobId(millis: nat): (id: JobId)
    ensures |id| > 4 && id[..4] == "log_"
    ensures forall i :: 4 <= i < |id| ==> IsDigit(id[i])
  {
    "log_" + NatToDecimal(millis)
  }

  /** Two submissions get the same id exactly when they happen in the same millisecond. */
  lemma JobIdsCollideOnlyInSameMillisecond(m1: nat, m2: nat)
    ensures CreateJobId(m1) == CreateJobId(m2) <==> m1 == m2
  {
    if m1 != m2 {
      NatToDecimalInjective(m1, m2);
      assert CreateJobId(m1)[4..] == NatToDecimal(m1);
      assert CreateJobId(m2)[4..] == NatToDecimal(m2);
    }
  }

  /** A queued worker task: the job it completes and the requested date. */
  datatype Task = Task(id: JobId, date: string)

  /**
   * The service state: `fileStatus`, `fileStorage`, the executor's queue of
   * not yet run tasks, and the files on disk.
   */
  datatype Store = Store(
    status: map<JobId, Status>,
    paths: map<JobId, Path>,
    pending: multiset<Task>,
    disk: Disk)

  const EmptyStore: Store := Store(map[], map[], multiset{}, map[])

  /** `getFileStatusAsync`: the stored status, NOT_FOUND for an unknown id. */
  function PollStatus(s: Store, id: JobId): (st: Status)
    ensures id !in s.status ==> st == Unknown
    ensures id in s.status ==> st == s.status[id]
  {
    if id in s.status then s.status[id] else Unknown
  }

  /** The line test of `filterLogsByDate`: `log.startsWith(date)`. */
  function StartsWithDate(date: string): string -> bool {
    line => IsPrefix(date, line)
  }

  /**
   * `filterLogsByDate`: the lines starting with `date`, in their original
   * order, or NotFound when there are none.
   */
  function FilterLogsByDate(logs: seq<string>, date: string): (r: Result<seq<string>>)
    ensures r.Err? ==> r.failure == NotFound
    ensures r.Ok? <==> exists i :: 0 <= i < |logs| && IsPrefix(date, logs[i])
    ensures r.Ok? ==>
              && (forall x :: x in r.value <==> x in logs && IsPrefix(date, x))
              && (forall x :: multiset(r.value)[x] == if IsPrefix(date, x) then multiset(logs)[x] else 0)
              && IsSubsequence(r.value, logs)
  {
    var kept := Filter(logs, StartsWithDate(date));
    if kept == [] then
      assert forall i :: 0 <= i < |logs| ==> logs[i] !in kept;
      Err(NotFound)
    else
      assert kept[0] in logs;
      Ok(kept)
  }

  /**
   * `readLogsByDate`: NotFound when the log file does not exist, the read's
   * IOException, otherwise the filtered lines.
   */
  function ReadLogsByDate(env: Env, date: string): (r: Result<seq<string>>)
    ensures !env.logExists ==> r == Err(NotFound)
    ensures r.Ok? <==> env.logExists && env.readOk
                       && exists i :: 0 <= i < |ReadLines(env.logText)| && IsPrefix(date, ReadLines(env.logText)[i])
    ensures r.Ok? ==> r.value == Filter(ReadLines(env.logText), StartsWithDate(date))
  {
    if !env.logExists then Err(NotFound)
    else if !env.readOk then Err(IoError)
    else FilterLogsByDate(ReadLines(env.logText), date)
  }

  /**
   * `createTempLogFile`: `getValidTempDir` accepts any directory (a symbolic
   * link to a directory included), then the file is created and written.
   */
  function CreateTempLogFile(env: Env, disk: Disk, logs: seq<string>, date: string): (out: (Result<Path>, Disk))
    ensures out.0.Ok? <==> env.tempDirIsDirectory && env.createOk && env.writeOk && TempPath(env, date) !in disk
    ensures !env.tempDirIsDirectory ==> out == (Err(IoError), disk)
    ensures Preserves(disk, out.1)
    ensures out.0.Ok? ==>
              && out.1 == disk[out.0.value := FileContent(logs, env.lineSeparator)]
              && out.0.value.dir == env.tempDir
  {
    if !env.tempDirIsDirectory then (Err(IoError), disk)
    else WriteTempLogFile(env, disk, logs, date)
  }

  /**
   * `createFilteredLogFileAsync` with the clock read already turned into
   * `id`: the job is recorded as PROCESSING before its task is queued.
   */
  function Submit(s: Store, id: JobId, date: string): (r: Store)
    ensures PollStatus(r, id) == Processing
    ensures forall other :: other != id ==> PollStatus(r, other) == PollStatus(s, other)
    ensures r.paths == s.paths && r.disk == s.disk
    ensures r.pending == s.pending + multiset{Task(id, date)}
  {
    s.(status := s.status[id := Processing], pending := s.pending + multiset{Task(id, date)})
  }

  /**
   * The work of `processFileAsync` inside its try block: sleep, read and
   * filter the log, write the result file. Returns the file (or the
   * exception's kind) and the disk afterwards.
   */
  function ExportRun(env: Env, disk: Disk, date: string): (out: (Result<Path>, Disk))
    ensures out.0.Ok? <==>
              && !env.interrupted && env.logExists && env.readOk
              && (exists i :: 0 <= i < |ReadLines(env.logText)| && IsPrefix(date, ReadLines(env.logText)[i]))
              && env.tempDirIsDirectory && env.createOk && env.writeOk && TempPath(env, date) !in disk
    ensures Preserves(disk, out.1)
    ensures out.0.Ok? ==>
              && out.0.value.dir == env.tempDir
              && out.1 == disk[out.0.value := FileContent(Filter(ReadLines(env.logText), StartsWithDate(date)), env.lineSeparator)]
  {
    if env.interrupted then (Err(Internal), disk)
    else
      var read := ReadLogsByDate(env, date);
      if read.Err? then (Err(read.failure), disk)
      else
        assert exists i :: 0 <= i < |ReadLines(env.logText)| && IsPrefix(date, ReadLines(env.logText)[i]);
        CreateTempLogFile(env, disk, read.value, date)
  }

  /**
   * `processFileAsync` run by a worker on a queued task: on success the path
   * is stored and then READY; any exception stores ERROR instead.
   */
  function ProcessFile(s: Store, t: Task, env: Env): (r: Store)
    requires t in s.pending
    ensures IsTerminal(PollStatus(r, t.id))
    ensures PollStatus(r, t.id) == Ready <==> ExportRun(env, s.disk, t.date).0.Ok?
    ensures PollStatus(r, t.id) == Ready ==>
              t.id in r.paths && r.paths[t.id] == ExportRun(env, s.disk, t.date).0.value
    ensures PollStatus(r, t.id) == Error ==> r.paths == s.paths
    ensures r.disk == ExportRun(env, s.disk, t.date).1
    ensures Preserves(s.disk, r.disk)
    ensures forall id :: id != t.id ==> PollStatus(r, id) == PollStatus(s, id)
    ensures forall id :: id != t.id ==> (id in r.paths <==> id in s.paths)
    ensures forall id :: id != t.id && id in s.paths ==> r.paths[id] == s.paths[id]
    ensures r.pending == s.pending - multiset{t}
    ensures r.status.Keys == s.status.Keys + {t.id}
  {
    var run := ExportRun(env, s.disk, t.date);
    Settle(s, t, run.0, run.1)
  }

  /**
   * The bookkeeping of `processFileAsync` once the export has ended with
   * `file` and left `disk` behind: the task leaves the queue, and the job is
   * READY with its path or ERROR without one.
   */
  function Settle(s: Store, t: Task, file: Result<Path>, disk: Disk): (r: Store)
    ensures PollStatus(r, t.id) == (if file.Ok? then Ready else Error)
    ensures file.Ok? ==> t.id in r.paths && r.paths[t.id] == file.value
    ensures file.Err? ==> r.paths == s.paths
    ensures r.disk == disk
    ensures forall id :: id != t.id ==> PollStatus(r, id) == PollStatus(s, id)
    ensures forall id :: id != t.id ==> (id in r.paths <==> id in s.paths)
    ensures forall id :: id != t.id && id in s.paths ==> r.paths[id] == s.paths[id]
    ensures r.pending == s.pending - multiset{t}
    ensures r.status.Keys == s.status.Keys + {t.id}
  {
    var s1 := s.(pending := s.pending - multiset{t}, disk := disk);
    if file.Err? then s1.(status := s.status[t.id := Error])
    else s1.(paths := s.paths[t.id := file.value], status := s.status[t.id := Ready])
  }

  /**
   * `getFileAsync`: NotFound when no path is stored for the id or the file
   * no longer exists; the status is not consulted.
   */
  function Download(s: Store, id: JobId): (r: Result<(Path, string)>)
    ensures r.Err? ==> r.failure == NotFound
    ensures r.Ok? <==> id in s.paths && s.paths[id] in s.disk
    ensures r.Ok? ==> r.value == (s.paths[id], s.disk[s.paths[id]])
  {
    if id !in s.paths || s.paths[id] !in s.disk then Err(NotFound)
    else Ok((s.paths[id], s.disk[s.paths[id]]))
  }

  /** A result file disappears (cleanup at exit, or removal by someone else). */
  function DeleteFile(s: Store, p: Path): Store {
    s.(disk := s.disk - {p})
  }

  /**
   * What holds for every store the service reaches: NOT_FOUND is never
   * stored, every queued task's job is recorded, and READY is stored only
   * after the path.
   */
  predicate Valid(s: Store) {
    && (forall id :: id in s.status ==> s.status[id] != Unknown)
    && (forall t :: t in s.pending ==> t.id in s.status)
    && (forall id :: id in s.status && s.status[id] == Ready ==> id in s.paths)
  }

  lemma SubmitKeepsValid(s: Store, id: JobId, date: string)
    requires Valid(s)
    ensures Valid(Submit(s, id, date))
  {
  }

  lemma ProcessFileKeepsValid(s: Store, t: Task, env: Env)
    requires Valid(s) && t in s.pending
    ensures Valid(ProcessFile(s, t, env))
  {
  }

  /** The ids of the queued tasks. */
  function PendingIds(s: Store): set<JobId> {
    set t | t in s.pending :: t.id
  }

  /**
   * The invariant of a service whose job ids never collide: every job
   * waiting for its worker is PROCESSING and has exactly one queued task,
   * and a job has a stored path exactly when it is READY.
   */
  predicate Tracked(s: Store) {
    && Valid(s)
    && (forall id :: id in s.status ==> (s.status[id] == Processing <==> id in PendingIds(s)))
    && PendingIds(s) <= s.status.Keys
    && (forall t :: t in s.pending ==> s.pending[t] == 1)
    && (forall t1, t2 :: t1 in s.pending && t2 in s.pending && t1.id == t2.id ==> t1 == t2)
    && (forall id :: id in s.paths ==> id in s.status && s.status[id] == Ready)
    && (forall id :: id in s.status && s.status[id] == Ready ==> id in s.paths)
  }

  lemma SubmitFreshKeepsTracked(s: Store, id: JobId, date: string)
    requires Tracked(s) && id !in s.status
    ensures Tracked(Submit(s, id, date))
  {
    var r := Submit(s, id, date);
    assert id !in PendingIds(s);
    SubmitKeepsValid(s, id, date);
    SubmitAddsPendingId(s, id, date);
    SubmitKeepsQueueUnique(s, id, date);
    forall x | x in r.status
      ensures r.status[x] == Processing <==> x in PendingIds(r)
    {
      if x != id {
        assert r.status[x] == s.status[x];
      }
    }
  }

  lemma SubmitAddsPendingId(s: Store, id: JobId, date: string)
    ensures PendingIds(Submit(s, id, date)) == PendingIds(s) + {id}
  {
    assert Task(id, date) in Submit(s, id, date).pending;
  }

  /** Queuing a task for a job with no queued task keeps every job at one queued task. */
  lemma SubmitKeepsQueueUnique(s: Store, id: JobId, date: string)
    requires id !in PendingIds(s)
    requires forall t :: t in s.pending ==> s.pending[t] == 1
    requires forall t1, t2 :: t1 in s.pending && t2 in s.pending && t1.id == t2.id ==> t1 == t2
    ensures var r := Submit(s, id, date);
      && (forall t :: t in r.pending ==> r.pending[t] == 1)
      && (forall t1, t2 :: t1 in r.pending && t2 in r.pending && t1.id == t2.id ==> t1 == t2)
  {
    assert Task(id, date) !in s.pending;
  }

  /** Removing a task whose id is unique among the queued ones removes exactly its id. */
  lemma PendingIdsAfterWorker(s: Store, t: Task, rest: multiset<Task>)
    requires t in s.pending && s.pending[t] == 1
    requires forall u :: u in s.pending && u.id == t.id ==> u == t
    requires rest == s.pending - multiset{t}
    ensures PendingIds(s.(pending := rest)) == PendingIds(s) - {t.id}
  {
    var r := s.(pending := rest);
    forall u | u in r.pending ensures u.id != t.id && u.id in PendingIds(s) {
      assert r.pending[u] <= s.pending[u];
    }
    forall u | u in s.pending && u.id != t.id ensures u in r.pending {
      assert r.pending[u] == s.pending[u];
    }
  }

  /**
   * The worker's effect on the store, stated without the export itself: the
   * task's job settles, no other job changes, and the task leaves the queue.
   */
  lemma WorkerOutcomeKeepsTracked(s: Store, t: Task, r: Store)
    requires Tracked(s) && t in s.pending
    requires IsTerminal(PollStatus(r, t.id))
    requires PollStatus(r, t.id) == Ready ==> t.id in r.paths
    requires PollStatus(r, t.id) == Error ==> r.paths == s.paths
    requires forall id :: id != t.id ==> PollStatus(r, id) == PollStatus(s, id)
    requires forall id :: id != t.id ==> (id in r.paths <==> id in s.paths)
    requires r.pending == s.pending - multiset{t}
    requires r.status.Keys == s.status.Keys + {t.id}
    ensures Tracked(r)
  {
    PendingIdsAfterWorker(s, t, r.pending);
    assert t.id in s.status && s.status[t.id] == Processing;
    forall id | id in r.status
      ensures r.status[id] != Unknown
      ensures r.status[id] == Processing <==> id in PendingIds(r)
      ensures r.status[id] == Ready ==> id in r.paths
    {
      if id != t.id {
        assert PollStatus(r, id) == PollStatus(s, id);
      } else {
        assert PollStatus(r, id) == r.status[id];
      }
    }
    forall u | u in r.pending ensures u.id in r.status {
      assert r.pending[u] <= s.pending[u];
    }
    QueueUniqueAfterRemoval(s.pending, r.pending, t);
    forall id | id in r.paths ensures id in r.status && r.status[id] == Ready {
      if id != t.id {
        assert PollStatus(r, id) == PollStatus(s, id);
      }
    }
  }

  /** Taking a task off a queue with one task per job keeps one task per job. */
  lemma QueueUniqueAfterRemoval(before: multiset<Task>, after: multiset<Task>, t: Task)
    requires after == before - multiset{t}
    requires forall u :: u in before ==> before[u] == 1
    requires forall t1, t2 :: t1 in before && t2 in before && t1.id == t2.id ==> t1 == t2
    ensures forall u :: u in after ==> after[u] == 1
    ensures forall t1, t2 :: t1 in after && t2 in after && t1.id == t2.id ==> t1 == t2
  {
    forall u | u in after ensures u in before && after[u] <= before[u] {
    }
  }

  lemma ProcessFileKeepsTracked(s: Store, t: Task, env: Env)
    requires Tracked(s) && t in s.pending
    ensures Tracked(ProcessFile(s, t, env))
  {
    WorkerOutcomeKeepsTracked(s, t, ProcessFile(s, t, env));
  }

  /** One step of the service: a submission, a worker run, or a file removal. */
  datatype Step =
    | SubmitStep(id: JobId, date: string)
    | WorkerStep(task: Task, env: Env)
    | CleanupStep(path: Path)

  /** A worker exists only for a queued task; any other worker step does nothing. */
  function Apply(s: Store, step: Step): Store {
    match step
    case SubmitStep(id, date) => Submit(s, id, date)
    case WorkerStep(t, env) => if t in s.pending then ProcessFile(s, t, env) else s
    case CleanupStep(p) => DeleteFile(s, p)
  }

  predicate Submits(step: Step, id: JobId) {
    step.SubmitStep? && step.id == id
  }

  function Run(s: Store, steps: seq<Step>): Store
    decreases |steps|
  {
    if |steps| == 0 then s else Run(Apply(s, steps[0]), steps[1..])
  }

  /** Every submission in `steps` uses an id the store has never seen. */
  predicate FreshSubmissions(s: Store, steps: seq<Step>)
    decreases |steps|
  {
    |steps| == 0 ||
    ((steps[0].SubmitStep? ==> steps[0].id !in s.status) && FreshSubmissions(Apply(s, steps[0]), steps[1..]))
  }

  lemma ApplyKeepsTracked(s: Store, step: Step)
    requires Tracked(s)
    requires step.SubmitStep? ==> step.id !in s.status
    ensures Tracked(Apply(s, step))
  {
    match step
    case SubmitStep(id, date) => SubmitFreshKeepsTracked(s, id, date);
    case WorkerStep(t, env) =>
      if t in s.pending {
        ProcessFileKeepsTracked(s, t, env);
      }
    case CleanupStep(p) =>
  }

  /**
   * With ids that never collide, a job that has reached READY or ERROR keeps
   * that status whatever happens afterwards.
   */
  lemma {:induction false} TerminalStatusIsStable(s: Store, steps: seq<Step>, id: JobId)
    requires Tracked(s) && FreshSubmissions(s, steps)
    requires IsTerminal(PollStatus(s, id))
    ensures PollStatus(Run(s, steps), id) == PollStatus(s, id)
    decreases |steps|
  {
    if |steps| > 0 {
      ApplyKeepsTracked(s, steps[0]);
      ApplyKeepsTerminal(s, steps[0], id);
      TerminalStatusIsStable(Apply(s, steps[0]), steps[1..], id);
    }
  }

  /** One step leaves a settled job's status alone. */
  lemma ApplyKeepsTerminal(s: Store, step: Step, id: JobId)
    requires Tracked(s) && IsTerminal(PollStatus(s, id))
    requires step.SubmitStep? ==> step.id !in s.status
    ensures PollStatus(Apply(s, step), id) == PollStatus(s, id)
  {
    assert id !in PendingIds(s);
    if step.WorkerStep? && step.task in s.pending {
      assert step.task.id in PendingIds(s);
    }
  }

  /** A step records a new job exactly when it submits that job's id. */
  lemma ApplyRecords(s: Store, step: Step, id: JobId)
    requires Valid(s)
    ensures Valid(Apply(s, step))
    ensures id in Apply(s, step).status <==> id in s.status || Submits(step, id)
  {
    match step {
      case SubmitStep(i, d) => SubmitKeepsValid(s, i, d);
      case WorkerStep(t, env) =>
        if t in s.pending {
          var r := ProcessFile(s, t, env);
          ProcessFileKeepsValid(s, t, env);
          assert PollStatus(r, id) == Unknown <==> PollStatus(s, id) == Unknown;
        }
      case CleanupStep(p) =>
    }
  }

  /** Polling reports NOT_FOUND exactly for ids that were never submitted. */
  lemma {:induction false} NotFoundIffNeverSubmitted(s: Store, steps: seq<Step>, id: JobId)
    requires Valid(s)
    ensures PollStatus(Run(s, steps), id) == Unknown <==>
              id !in s.status && forall i :: 0 <= i < |steps| ==> !Submits(steps[i], id)
    decreases |steps|
  {
    if |steps| > 0 {
      var s1 := Apply(s, steps[0]);
      ApplyRecords(s, steps[0], id);
      NotFoundIffNeverSubmitted(s1, steps[1..], id);
      assert Run(s, steps) == Run(s1, steps[1..]);
      assert forall i :: 1 <= i < |steps| ==> steps[i] == steps[1..][i - 1];
    } else {
      if id in s.status {
        assert s.status[id] != Unknown;
      }
    }
  }

  /** Once the queue is empty, every job has settled in READY or ERROR. */
  lemma AllJobsSettle(s: Store, id: JobId)
    requires Tracked(s) && s.pending == multiset{}
    requires id in s.status
    ensures IsTerminal(PollStatus(s, id))
  {
    assert PendingIds(s) == {};
  }

  /** Downloading a job that is not READY fails with NotFound. */
  lemma DownloadBeforeReadyFails(s: Store, id: JobId)
    requires Tracked(s)
    requires PollStatus(s, id) != Ready
    ensures Download(s, id) == Err(NotFound)
  {
  }

  /**
   * A READY job downloads the file its worker wrote, and reading that file
   * gives back exactly the log lines that start with the date, in order.
   */
  lemma ReadyJobDownloadsFilteredLines(s: Store, t: Task, env: Env)
    requires t in s.pending
    requires env.lineSeparator == "\n" || env.lineSeparator == "\r\n"
    requires PollStatus(ProcessFile(s, t, env), t.id) == Ready
    ensures Download(ProcessFile(s, t, env), t.id).Ok?
    ensures ReadLines(Download(ProcessFile(s, t, env), t.id).value.1)
            == Filter(ReadLines(env.logText), StartsWithDate(t.date))
  {
    var kept := Filter(ReadLines(env.logText), StartsWithDate(t.date));
    assert ExportRun(env, s.disk, t.date).0.Ok?;
    assert forall i :: 0 <= i < |kept| ==> kept[i] in ReadLines(env.logText);
    ReadWrittenLines(kept, env.lineSeparator);
  }

  /**
   * A step other than removing a READY job's file leaves that job READY
   * and its download unchanged, as long as submissions use fresh ids:
   * workers only run queued jobs, and a new file never replaces an old one.
   */
  lemma ApplyKeepsReadyDownload(s: Store, step: Step, id: JobId)
    requires Tracked(s)
    requires step.SubmitStep? ==> step.id !in s.status
    requires PollStatus(s, id) == Ready && Download(s, id).Ok?
    requires step != CleanupStep(s.paths[id])
    ensures Tracked(Apply(s, step))
    ensures PollStatus(Apply(s, step), id) == Ready
    ensures Download(Apply(s, step), id) == Download(s, id)
  {
    ApplyKeepsTracked(s, step);
    assert id !in PendingIds(s);
    match step {
      case SubmitStep(i, d) =>
      case WorkerStep(t, env) =>
        if t in s.pending {
          assert t.id in PendingIds(s);
        }
      case CleanupStep(p) =>
    }
  }

  /**
   * With ids that never collide, a READY job whose file is not removed
   * downloads the same file with the same contents after any run of steps.
   */
  lemma {:induction false} ReadyDownloadIsStable(s: Store, steps: seq<Step>, id: JobId)
    requires Tracked(s) && FreshSubmissions(s, steps)
    requires PollStatus(s, id) == Ready && Download(s, id).Ok?
    requires forall i :: 0 <= i < |steps| ==> steps[i] != CleanupStep(s.paths[id])
    ensures Download(Run(s, steps), id) == Download(s, id)
    decreases |steps|
  {
    if |steps| > 0 {
      ApplyKeepsReadyDownload(s, steps[0], id);
      var s1 := Apply(s, steps[0]);
      assert s1.paths[id] == s.paths[id];
      assert forall i :: 0 <= i < |steps| - 1 ==> steps[1..][i] == steps[i + 1];
      ReadyDownloadIsStable(s1, steps[1..], id);
    }
  }

  /**
   * Once its worker has made a job READY, the job downloads exactly the
   * log lines starting with its date, in order, through any later run of
   * steps with fresh ids that does not remove its file.
   */
  lemma ReadyJobKeepsFilteredLines(s: Store, t: Task, env: Env, steps: seq<Step>)
    requires Tracked(s) && t in s.pending
    requires env.lineSeparator == "\n" || env.lineSeparator == "\r\n"
    requires PollStatus(ProcessFile(s, t, env), t.id) == Ready
    requires FreshSubmissions(ProcessFile(s, t, env), steps)
    requires forall i :: 0 <= i < |steps| ==> steps[i] != CleanupStep(ProcessFile(s, t, env).paths[t.id])
    ensures Download(Run(ProcessFile(s, t, env), steps), t.id).Ok?
    ensures ReadLines(Download(Run(ProcessFile(s, t, env), steps), t.id).value.1)
            == Filter(ReadLines(env.logText), StartsWithDate(t.date))
  {
    var r := ProcessFile(s, t, env);
    ProcessFileKeepsTracked(s, t, env);
    ReadyJobDownloadsFilteredLines(s, t, env);
    ReadyDownloadIsStable(r, steps, t.id);
  }

  /**
   * Two submissions in the same millisecond share an id: the second one
   * puts a READY job back to PROCESSING while its old file stays downloadable.
   */
  lemma SameIdResubmissionReopensJob(s: Store, id: JobId, date: string)
    requires Valid(s) && PollStatus(s, id) == Ready
    ensures PollStatus(Submit(s, id, date), id) == Processing
    ensures Download(Submit(s, id, date), id) == Download(s, id)
  {
  }
}
