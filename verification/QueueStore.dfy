/**
 * What the queue keeps in Redis, and each queue operation as one atomic change of it:
 * a Lua script or one MULTI/EXEC pipeline (`abort` and `_reschedule`, which send several,
 * are taken as one change too).
 */
module QueueStore {
  import opened Common

  /** Job ids are opaque names here; the protocol only compares them. */
  type Id = nat

  datatype Status = New | Deferred | Queued | Active | Aborted | Failed | Complete | Rescheduled

  /** Statuses of a job that may still run. */
  predicate Incomplete(s: Status) {
    s in {New, Deferred, Queued, Active, Rescheduled}
  }

  /** The fields of a job that the protocol reads or writes. */
  datatype Job = Job(id: Id, status: Status, attempts: nat, retries: int, ttl: int, scheduled: int)

  /** A job record and, when it carries a TTL, the moment it lapses. */
  datatype Record = Record(job: Job, expires: Option<real>)

  datatype Store = Store(
    incomplete: map<Id, real>,   // sorted set: id to score
    queued: seq<Id>,             // list, head first
    active: seq<Id>,             // list, head first
    records: map<Id, Record>,
    aborts: map<Id, real>,       // abort key of an id, with its deadline
    scheduleLock: Option<real>,  // deadline of the schedule lock key
    sweepLock: Option<real>,     // deadline of the sweep lock key
    stuck: set<Id>,
    clock: real)                 // epoch seconds

  /** The empty queue at some moment after the epoch's first second. */
  predicate IsEmpty(s: Store) {
    s.incomplete == map[] && s.queued == [] && s.active == [] && s.records == map[] && s.aborts == map[] &&
    s.scheduleLock.None? && s.sweepLock.None? && s.stuck == {} && s.clock >= 1.0
  }

  /** Occurrences of an id in `queued ++ active`. */
  function Occurrences(s: Store, id: Id): nat {
    Count(s.queued, id) + Count(s.active, id)
  }

  /** The id is marked as runnable now. */
  predicate Ready(s: Store, id: Id) {
    id in s.incomplete && s.incomplete[id] == 0.0
  }

  /** The guard of the enqueue script. */
  predicate Accepts(s: Store, id: Id) {
    id !in s.incomplete && id !in s.aborts
  }

  function Enqueue(s: Store, job: Job): Store {
    if !Accepts(s, job.id) then s
    else s.(records := s.records[job.id := Record(job.(status := Queued), None)],
            incomplete := s.incomplete[job.id := job.scheduled as real],
            queued := if job.scheduled == 0 then s.queued + [job.id] else s.queued)
  }

  /** The reply of `ZRANGEBYSCORE incomplete 1 now`: each due id once, by rising score. */
  ghost predicate IsDueListing(s: Store, now: real, due: seq<Id>) {
    && (forall id :: id in due <==> id in s.incomplete && 1.0 <= s.incomplete[id] <= now)
    && (forall id :: Count(due, id) <= 1)
    && (forall i, j :: 0 <= i < j < |due| && due[i] in s.incomplete && due[j] in s.incomplete
          ==> s.incomplete[due[i]] <= s.incomplete[due[j]])
  }

  /** `ZADD key 0 id` for every id of a listing. */
  function Zeroed(scores: map<Id, real>, ids: seq<Id>): map<Id, real> {
    scores + map id | id in ids :: 0.0
  }

  function Schedule(s: Store, lock: real, due: seq<Id>): Store {
    if s.scheduleLock.Some? then s
    else s.(scheduleLock := Some(s.clock + lock),
            incomplete := Zeroed(s.incomplete, due),
            queued := s.queued + due)
  }

  /** `BLMOVE queued active RIGHT LEFT` on a queue with something in it. */
  function Dequeue(s: Store): Store
    requires s.queued != []
  {
    s.(queued := s.queued[..|s.queued| - 1], active := [Next(s)] + s.active)
  }

  function Next(s: Store): Id
    requires s.queued != []
  {
    s.queued[|s.queued| - 1]
  }

  /** `job.update()`: the record is rewritten, which also drops any TTL it had. */
  function Update(s: Store, job: Job): Store {
    s.(records := s.records[job.id := Record(job, None)])
  }

  /** How `finish` leaves the record: kept for ttl seconds, kept for good, or deleted. */
  function Archived(s: Store, job: Job): map<Id, Record> {
    if job.ttl > 0 then s.records[job.id := Record(job, Some(s.clock + job.ttl as real))]
    else if job.ttl == 0 then s.records[job.id := Record(job, None)]
    else s.records - {job.id}
  }

  function Finish(s: Store, job: Job, status: Status): Store {
    s.(active := RemoveFirst(s.active, job.id),
       incomplete := s.incomplete - {job.id},
       records := Archived(s, job.(status := status)))
  }

  /** `retry`; a zero delay takes the immediate branch, which re-uses the job's own schedule. */
  function Retry(s: Store, job: Job, delay: real): Store {
    var job' := job.(status := Queued);
    var trimmed := RemoveFirst(s.queued, job.id);
    s.(active := RemoveFirst(s.active, job.id),
       queued := if delay != 0.0 then trimmed else trimmed + [job.id],
       incomplete := s.incomplete[job.id := if delay != 0.0 then s.clock + delay else job.scheduled as real],
       records := s.records[job.id := Record(job', None)])
  }

  function Reschedule(s: Store, job: Job, wait: real): Store {
    var done := Finish(s, job, Rescheduled);
    done.(active := RemoveFirst(done.active, job.id),
          queued := RemoveFirst(done.queued, job.id),
          incomplete := done.incomplete[job.id := done.clock + wait],
          records := done.records[job.id := Record(job.(status := Queued), None)])
  }

  /** `EXPIRE id seconds`: shortens the life of a record that exists. */
  function ExpireRecord(s: Store, id: Id, seconds: int): map<Id, Record> {
    if id in s.records then s.records[id := s.records[id].(expires := Some(s.clock + seconds as real))]
    else s.records
  }

  function Abort(s: Store, job: Job, ttl: int): Store {
    var marked := s.(queued := RemoveAll(s.queued, job.id),
                     incomplete := s.incomplete - {job.id},
                     records := ExpireRecord(s, job.id, ttl + 1),
                     aborts := s.aborts[job.id := s.clock + ttl as real]);
    if job.id in s.queued then
      var done := Finish(marked, job, Aborted);
      done.(aborts := done.aborts - {job.id})
    else
      marked.(active := RemoveAll(marked.active, job.id))
  }

  /** The worker's side of an abort: finish the cancelled run and drop the abort key. */
  function AbortRun(s: Store, job: Job): Store {
    var done := Finish(s, job, Aborted);
    done.(aborts := done.aborts - {job.id})
  }

  /** Taking the sweep lock; the listing it returns is the active list. */
  function TakeSweepLock(s: Store, lock: real): Store {
    if s.sweepLock.Some? then s else s.(sweepLock := Some(s.clock + lock))
  }

  /** A sweep ends a job that is over but still listed, or active for too long (`Job.stuck`). */
  predicate Sweepable(job: Job, overdue: bool) {
    !Incomplete(job.status) || (job.status == Active && overdue)
  }

  /** What a sweep does with one listed id, given the job it read for it. */
  function SweepSeen(s: Store, id: Id, seen: Option<Job>, overdue: bool): Store {
    match seen
    case None => s.(active := RemoveAll(s.active, id), incomplete := s.incomplete - {id})
    case Some(job) => if Sweepable(job, overdue) then Finish(s, job, Aborted) else s
  }

  /** The job stored under an id. */
  function JobOf(records: map<Id, Record>, id: Id): Option<Job> {
    if id in records then Some(records[id].job) else None
  }

  function SweepOne(s: Store, id: Id, overdue: bool): Store {
    SweepSeen(s, id, JobOf(s.records, id), overdue)
  }

  /** `TTL` answers in seconds, rounded, so the last half second of a record looks like having no TTL. */
  predicate LooksLasting(r: Record, clock: real) {
    r.expires.None? || r.expires.value < clock + 0.5
  }

  /** The stuck checker looks at a record that seems to have no TTL and is neither scheduled, cron nor active. */
  predicate LooksStuck(s: Store, id: Id, cron: bool) {
    id in s.records && LooksLasting(s.records[id], s.clock) &&
    s.records[id].job.scheduled <= 0 && !cron && s.records[id].job.status != Active
  }

  /** First sight marks the id; the second sight pushes it back and clears the mark. */
  function CheckStuck(s: Store, id: Id, cron: bool): Store {
    if !LooksStuck(s, id, cron) then s
    else if id !in s.stuck then s.(stuck := s.stuck + {id})
    else s.(active := RemoveFirst(s.active, id),
            queued := [id] + s.queued,
            incomplete := s.incomplete[id := s.records[id].job.scheduled as real],
            stuck := s.stuck - {id})
  }

  /** Time passes and every key whose deadline is reached disappears. */
  function Tick(s: Store, t: real): Store {
    s.(clock := t,
       records := map id | id in s.records && (s.records[id].expires.Some? ==> t < s.records[id].expires.value) ::
           s.records[id],
       aborts := map id | id in s.aborts && t < s.aborts[id] :: s.aborts[id],
       scheduleLock := if s.scheduleLock.Some? && s.scheduleLock.value <= t then None else s.scheduleLock,
       sweepLock := if s.sweepLock.Some? && s.sweepLock.value <= t then None else s.sweepLock)
  }

  /** How a run of a job can end inside `process_queue`. */
  datatype Outcome =
    | Returned                              // the function returned
    | Raised(retryable: bool, delay: real)  // JobError or any other exception
    | Cancelled(retryable: bool, delay: real)

  /** The delay that a run's outcome asks for. */
  function DelayOf(outcome: Outcome): real {
    match outcome
    case Returned => 0.0
    case Raised(_, delay) => delay
    case Cancelled(_, delay) => delay
  }

  /** The end of a run: success, the two exception branches, or the cancellation branch. */
  function EndRun(s: Store, job: Job, outcome: Outcome): Store {
    match outcome
    case Returned => Finish(s, job, Complete)
    case Raised(retryable, delay) =>
      if job.attempts > job.retries then Finish(s, job, Failed)
      else if retryable then Retry(s, job, delay)
      else Finish(s, job.(retries := 0), Failed)
    case Cancelled(retryable, delay) =>
      if retryable then Retry(s, job, delay) else s
  }

  /** The outcome puts the job back for another run. */
  predicate Retries(job: Job, outcome: Outcome) {
    match outcome
    case Returned => false
    case Raised(retryable, _) => job.attempts <= job.retries && retryable
    case Cancelled(retryable, _) => retryable
  }

  /** `process_queue` up to the call: the attempt is counted before the function runs. */
  function Started(job: Job): Job {
    job.(status := Active, attempts := job.attempts + 1)
  }
}
