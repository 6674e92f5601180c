/** Delivery of queued notifications: retries with exponential backoff until sent or exhausted. */
module NotifyRetry {

  type Id = nat

  datatype Status = Pending | Retrying | Sent | Exhausted

  /** Times are in seconds. */
  datatype Job = Job(status: Status, retryCount: nat, maxRetries: int, nextRetryAt: int)

  const MINUTE := 60

  function Pow5(n: nat): nat {
    if n == 0 then 1 else 5 * Pow5(n - 1)
  }

  predicate Waiting(job: Job) {
    job.status == Pending || job.status == Retrying
  }

  predicate Ready(job: Job, now: int) {
    Waiting(job) && job.nextRetryAt <= now
  }

  /** A job after an attempt whose status write happens at now. */
  function Attempted(job: Job, delivered: bool, now: int): Job {
    if delivered then job.(status := Sent)
    else if job.retryCount + 1 >= job.maxRetries then job.(status := Exhausted)
    else job.(status := Retrying, retryCount := job.retryCount + 1, nextRetryAt := now + MINUTE * Pow5(job.retryCount + 1))
  }

  /**
   What an attempt makes of a job: sent, or exhausted when its retries are used up, or due
   again five minutes after the first failure, five times as long after each further one.
   */
  predicate IsOutcome(job: Job, delivered: bool, now: int, n: Job) {
    && n.maxRetries == job.maxRetries
    && if delivered then n.status == Sent
       else if job.retryCount + 1 >= job.maxRetries then n.status == Exhausted
       else n.status == Retrying && n.retryCount == job.retryCount + 1 && IsBackoff(n.retryCount, n.nextRetryAt - now)
  }

  /** The delay in seconds before the given retry. */
  predicate IsBackoff(retry: nat, delay: int) {
    (retry == 1 ==> delay == 300) && (retry == 2 ==> delay == 1500) && delay == MINUTE * Pow5(retry)
  }

  /** The delays are the powers of five: they start with 5, and each is five times the one before. */
  lemma {:induction false} PowersOfFive(m: nat, n: nat)
    ensures Pow5(0) == 1 && Pow5(1) == 5 && Pow5(m + n) == Pow5(m) * Pow5(n)
  {
    if m > 0 {
      PowersOfFive(m - 1, n);
      assert Pow5(m + n) == 5 * (Pow5(m - 1) * Pow5(n)) == (5 * Pow5(m - 1)) * Pow5(n);
    }
  }

  lemma AttemptOutcome(job: Job, delivered: bool, now: int)
    ensures IsOutcome(job, delivered, now, Attempted(job, delivered, now))
  {
    assert Pow5(1) == 5 * Pow5(0) && Pow5(2) == 5 * Pow5(1);
  }

  /** A failed first attempt that is not the last makes the job due 300 seconds later; each further one multiplies the delay by five. */
  lemma DelaysGrowFivefold(job: Job, first: int, second: int)
    ensures job.retryCount == 0 && job.maxRetries > 1 ==> Attempted(job, false, first).nextRetryAt == first + 300
    ensures job.retryCount + 2 < job.maxRetries ==>
      var once := Attempted(job, false, first);
      Attempted(once, false, second).nextRetryAt - second == 5 * (once.nextRetryAt - first)
  {
    assert Pow5(job.retryCount + 2) == 5 * Pow5(job.retryCount + 1);
    assert Pow5(1) == 5 * Pow5(0);
  }

  class JobStore {
    var jobs: map<Id, Job>

    constructor (jobs: map<Id, Job>)
      ensures this.jobs == jobs
    {
      this.jobs := jobs;
    }

    method MarkSent(id: Id)
      requires id in jobs
      modifies this
      ensures jobs == old(jobs)[id := old(jobs)[id].(status := Sent)]
    {
      jobs := jobs[id := jobs[id].(status := Sent)];
    }

    method MarkRetry(id: Id, retryCount: nat, now: int)
      requires id in jobs
      modifies this
      ensures jobs == old(jobs)[id := old(jobs)[id].(status := Retrying, retryCount := retryCount, nextRetryAt := now + MINUTE * Pow5(retryCount))]
    {
      jobs := jobs[id := jobs[id].(status := Retrying, retryCount := retryCount, nextRetryAt := now + MINUTE * Pow5(retryCount))];
    }

    method MarkExhausted(id: Id)
      requires id in jobs
      modifies this
      ensures jobs == old(jobs)[id := old(jobs)[id].(status := Exhausted)]
    {
      jobs := jobs[id := jobs[id].(status := Exhausted)];
    }

    /** One batch: every fetched job is attempted once, in order, and no other job changes. */
    method ProcessBatch(batch: seq<Id>, delivered: seq<bool>, clock: seq<int>)
      requires |delivered| == |batch| && |clock| == |batch|
      requires forall i :: 0 <= i < |batch| ==> batch[i] in jobs
      requires forall i, j :: 0 <= i < j < |batch| ==> batch[i] != batch[j]
      modifies this
      ensures jobs.Keys == old(jobs).Keys
      ensures forall i :: 0 <= i < |batch| ==> jobs[batch[i]] == Attempted(old(jobs)[batch[i]], delivered[i], clock[i])
      ensures forall i :: 0 <= i < |batch| ==> IsOutcome(old(jobs)[batch[i]], delivered[i], clock[i], jobs[batch[i]])
      ensures forall id :: id in jobs && id !in batch ==> jobs[id] == old(jobs)[id]
    {
      for i := 0 to |batch|
        invariant jobs.Keys == old(jobs).Keys
        invariant forall k :: 0 <= k < i ==> jobs[batch[k]] == Attempted(old(jobs)[batch[k]], delivered[k], clock[k])
        invariant forall id :: id in jobs && id !in batch[..i] ==> jobs[id] == old(jobs)[id]
        invariant forall k :: 0 <= k < i ==> IsOutcome(old(jobs)[batch[k]], delivered[k], clock[k], jobs[batch[k]])
      {
        AttemptOutcome(jobs[batch[i]], delivered[i], clock[i]);
        var job := jobs[batch[i]];
        assert job == old(jobs)[batch[i]];
        if delivered[i] {
          MarkSent(batch[i]);
        } else {
          var newCount := job.retryCount + 1;
          if newCount >= job.maxRetries {
            MarkExhausted(batch[i]);
          } else {
            MarkRetry(batch[i], newCount, clock[i]);
          }
        }
      }
    }
  }

  // ---- The life of one job ----------------------------------------------------------

  /** An attempt: when the job was fetched, when its new status was written, and whether delivery worked. */
  datatype Attempt = Attempt(at: int, marked: int, delivered: bool)

  function After(job: Job, attempts: seq<Attempt>): Job {
    if attempts == [] then job
    else Attempted(After(job, attempts[..|attempts| - 1]), attempts[|attempts| - 1].delivered, attempts[|attempts| - 1].marked)
  }

  /** Each attempt found the job ready, and its status was written no earlier than it was fetched. */
  ghost predicate Possible(job: Job, attempts: seq<Attempt>) {
    forall i :: 0 <= i < |attempts| ==> Ready(After(job, attempts[..i]), attempts[i].at) && attempts[i].at <= attempts[i].marked
  }

  /** How many attempts a job can still take. */
  function Remaining(job: Job): nat {
    if !Waiting(job) then 0 else if job.retryCount + 1 >= job.maxRetries then 1 else job.maxRetries - job.retryCount
  }

  /** Every attempt uses up one that remained, and one that fails last exhausts the job. */
  lemma AttemptUsesOne(job: Job, delivered: bool, now: int)
    requires Waiting(job)
    ensures var n := Attempted(job, delivered, now);
      && Remaining(n) < Remaining(job)
      && (!delivered ==> Remaining(n) == Remaining(job) - 1)
      && (Remaining(n) == 0 <==> n.status == Sent || n.status == Exhausted)
  {
  }

  lemma PossiblePrefix(job: Job, attempts: seq<Attempt>)
    requires attempts != [] && Possible(job, attempts)
    ensures Possible(job, attempts[..|attempts| - 1])
    ensures Ready(After(job, attempts[..|attempts| - 1]), attempts[|attempts| - 1].at)
  {
    var before := attempts[..|attempts| - 1];
    forall i | 0 <= i < |before| ensures Ready(After(job, before[..i]), before[i].at) && before[i].at <= before[i].marked {
      assert before[..i] == attempts[..i];
    }
  }

  /** A new job with m retries is attempted at most max(m, 1) times; after that many it is sent or exhausted. */
  lemma {:induction false} AttemptsAreBounded(job: Job, attempts: seq<Attempt>)
    requires Waiting(job) && Possible(job, attempts)
    ensures |attempts| + Remaining(After(job, attempts)) <= Remaining(job)
    ensures |attempts| == Remaining(job) ==> !Waiting(After(job, attempts))
  {
    if attempts != [] {
      PossiblePrefix(job, attempts);
      AttemptsAreBounded(job, attempts[..|attempts| - 1]);
      AttemptUsesOne(After(job, attempts[..|attempts| - 1]), attempts[|attempts| - 1].delivered, attempts[|attempts| - 1].marked);
    }
  }

  /** Only the last attempt can have delivered. */
  lemma DeliveredAtMostOnce(job: Job, attempts: seq<Attempt>, i: nat)
    requires Possible(job, attempts) && i + 1 < |attempts|
    ensures !attempts[i].delivered
  {
    assert Ready(After(job, attempts[..i + 1]), attempts[i + 1].at);
    assert attempts[..i + 1][..i] == attempts[..i];
  }

  /** While it fails, a job that started with no retries has been retried as often as it was attempted. */
  lemma {:induction false} RetriesCount(job: Job, attempts: seq<Attempt>)
    requires job.retryCount == 0 && Possible(job, attempts) && Waiting(After(job, attempts))
    ensures After(job, attempts).retryCount == |attempts|
  {
    if attempts != [] {
      PossiblePrefix(job, attempts);
      RetriesCount(job, attempts[..|attempts| - 1]);
    }
  }

  /** The next attempt is not before the initial time plus 5 + 25 + ... + 5^k minutes, k the number of attempts so far. */
  lemma {:induction false} BackoffAdds(job: Job, attempts: seq<Attempt>)
    requires job.retryCount == 0 && Possible(job, attempts) && Waiting(After(job, attempts))
    ensures 4 * (After(job, attempts).nextRetryAt - job.nextRetryAt) >= MINUTE * (Pow5(|attempts| + 1) - 5)
  {
    if attempts != [] {
      var before, last := attempts[..|attempts| - 1], attempts[|attempts| - 1];
      PossiblePrefix(job, attempts);
      BackoffAdds(job, before);
      RetriesCount(job, before);
      assert last.at <= last.marked;
      assert After(job, attempts).nextRetryAt == last.marked + MINUTE * Pow5(|attempts|);
      assert Pow5(|attempts| + 1) == 5 * Pow5(|attempts|);
    }
  }

  /** The m-th attempt at a job comes at least (5^m - 5) / 4 minutes after the job was first due: 5 for the second, 30 for the third. */
  lemma BackoffHolds(job: Job, attempts: seq<Attempt>)
    requires job.retryCount == 0 && attempts != [] && Possible(job, attempts)
    ensures 4 * (attempts[|attempts| - 1].at - job.nextRetryAt) >= MINUTE * (Pow5(|attempts|) - 5)
    ensures |attempts| == 1 ==> attempts[0].at >= job.nextRetryAt
    ensures |attempts| == 2 ==> attempts[1].at >= job.nextRetryAt + 300
    ensures |attempts| == 3 ==> attempts[2].at >= job.nextRetryAt + 1800
  {
    assert Pow5(1) == 5 * Pow5(0) && Pow5(2) == 5 * Pow5(1) && Pow5(3) == 5 * Pow5(2);
    PossiblePrefix(job, attempts);
    BackoffAdds(job, attempts[..|attempts| - 1]);
  }
}
