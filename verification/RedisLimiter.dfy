/**
 The Redis limiter: one sorted set of attempt times per agent, pruned, extended and
 counted by one pipeline, with a key expiry renewed by every attempt. Pipelines are
 taken as atomic and members as distinct.
 */
module RedisLimiter {
  import opened Base
  import opened SlidingWindow

  const WINDOW_MS := 60_000
  const EXPIRY_MS := 65_000

  datatype ZSet = ZSet(scores: seq<int>, expireAt: int)

  /** What a command sees under a key: an expired key is gone. */
  function Scores(z: Option<ZSet>, now: int): seq<int> {
    if z.Some? && now < z.value.expireAt then z.value.scores else []
  }

  /** ZREMRANGEBYSCORE, ZADD and EXPIRE of one attempt. */
  function AfterAttempt(z: Option<ZSet>, now: int): ZSet {
    ZSet(After(Scores(z, now), now - WINDOW_MS) + [now], now + EXPIRY_MS)
  }

  function Lookup(keys: map<string, ZSet>, agent: string): Option<ZSet> {
    if agent in keys then Some(keys[agent]) else None
  }

  /** An expired key held nothing that still counts. */
  ghost predicate KeyTells(z: Option<ZSet>, attempts: seq<int>, now: int) {
    && UpTo(attempts, now)
    && match z
       case None => attempts == []
       case Some(zset) =>
         var last := zset.expireAt - EXPIRY_MS;
         last <= now && UpTo(attempts, last) && Faithful(zset.scores, attempts, last - WINDOW_MS)
  }

  lemma AttemptTells(z: Option<ZSet>, attempts: seq<int>, now: int)
    requires KeyTells(z, attempts, now)
    ensures After(Scores(z, now), now - WINDOW_MS) == After(attempts, now - WINDOW_MS)
    ensures KeyTells(Some(AfterAttempt(z, now)), attempts + [now], now)
  {
    var cutoff := now - WINDOW_MS;
    if z.Some? {
      var oldest := z.value.expireAt - EXPIRY_MS - WINDOW_MS;
      if now < z.value.expireAt {
        FaithfulPruned(z.value.scores, attempts, oldest, cutoff);
      } else {
        forall c | c >= cutoff ensures After([], c) == After(attempts, c) {
          AfterNothing(attempts, c);
        }
      }
    }
    FaithfulAppended(After(Scores(z, now), cutoff), attempts, cutoff, now);
  }

  lemma KeyTellsLater(z: Option<ZSet>, attempts: seq<int>, t: int, now: int)
    requires KeyTells(z, attempts, t) && t <= now
    ensures KeyTells(z, attempts, now)
  {
  }

  /**
   The limiter, with every attempt ever made under a positive limit kept beside the keys:
   expiry and pruning lose no attempt that can still count.
   */
  class RedisLimiter {
    var keys: map<string, ZSet>
    ghost var attempts: map<string, seq<int>>
    ghost var latest: int

    ghost predicate Valid()
      reads this
    {
      forall agent :: KeyTells(Lookup(keys, agent), Recall(attempts, agent), latest)
    }

    constructor ()
      ensures Valid() && attempts == map[] && latest == 0
    {
      keys, attempts, latest := map[], map[], 0;
    }

    /** A request is let through exactly when all the agent's attempts of the last minute, itself included, number at most rpm. */
    method Allow(agent: string, rpm: int, now: int) returns (ok: bool)
      requires Valid() && latest <= now
      modifies this
      ensures Valid() && latest == now
      ensures ok <==> rpm <= 0 || |After(Recall(old(attempts), agent), now - WINDOW_MS)| + 1 <= rpm
      ensures WINDOW_MS == 60_000
      ensures attempts == if rpm <= 0 then old(attempts) else old(attempts)[agent := Recall(old(attempts), agent) + [now]]
      ensures rpm <= 0 ==> keys == old(keys)
      ensures forall other :: other != agent ==> Lookup(keys, other) == Lookup(old(keys), other)
    {
      ghost var was := latest;
      latest := now;
      forall other ensures KeyTells(Lookup(keys, other), Recall(attempts, other), now) {
        KeyTellsLater(Lookup(keys, other), Recall(attempts, other), was, now);
      }
      if rpm <= 0 {
        return true;
      }
      AttemptTells(Lookup(keys, agent), Recall(attempts, agent), now);
      var scores := if agent in keys && now < keys[agent].expireAt then keys[agent].scores else [];
      scores := After(scores, now - WINDOW_MS);
      scores := scores + [now];
      keys := keys[agent := ZSet(scores, now + EXPIRY_MS)];
      attempts := attempts[agent := Recall(attempts, agent) + [now]];
      ok := |scores| <= rpm;
      forall other ensures KeyTells(Lookup(keys, other), Recall(attempts, other), now) {
        if other != agent {
          assert Lookup(keys, other) == old(Lookup(keys, other)) && Recall(attempts, other) == Recall(old(attempts), other);
        }
      }
    }
  }

  /** One call for an agent. */
  datatype Call = Call(rpm: int, at: int)

  predicate InOrder(calls: seq<Call>) {
    forall i, j :: 0 <= i < j < |calls| ==> calls[i].at <= calls[j].at
  }

  /** The agent's key after a run of calls. */
  function KeyAfter(calls: seq<Call>): Option<ZSet> {
    if calls == [] then None
    else
      var c, before := calls[|calls| - 1], KeyAfter(calls[..|calls| - 1]);
      if c.rpm <= 0 then before else Some(AfterAttempt(before, c.at))
  }

  /** Every attempt ever made under a positive limit, denied ones included. */
  function Attempts(calls: seq<Call>): seq<int> {
    if calls == [] then []
    else
      var c, before := calls[|calls| - 1], Attempts(calls[..|calls| - 1]);
      if c.rpm <= 0 then before else before + [c.at]
  }

  predicate Answer(calls: seq<Call>, rpm: int, now: int) {
    rpm <= 0 || |AfterAttempt(KeyAfter(calls), now).scores| <= rpm
  }

  lemma {:induction false} RunTells(calls: seq<Call>, now: int)
    requires InOrder(calls) && (calls == [] || calls[|calls| - 1].at <= now)
    ensures KeyTells(KeyAfter(calls), Attempts(calls), now)
    decreases |calls|
  {
    if calls != [] {
      var earlier, t := calls[..|calls| - 1], calls[|calls| - 1].at;
      RunTells(earlier, t);
      AttemptTells(KeyAfter(earlier), Attempts(earlier), t);
      assert KeyTells(KeyAfter(calls), Attempts(calls), t);
      KeyTellsLater(KeyAfter(calls), Attempts(calls), t, now);
    }
  }

  /** A request is let through exactly when all attempts of the last minute, denied ones and itself included, number at most rpm. */
  lemma CountsEveryAttempt(calls: seq<Call>, rpm: int, now: int)
    requires InOrder(calls) && (calls == [] || calls[|calls| - 1].at <= now)
    ensures Answer(calls, rpm, now) <==> rpm <= 0 || |After(Attempts(calls), now - WINDOW_MS)| + 1 <= rpm
  {
    RunTells(calls, now);
    AttemptTells(KeyAfter(calls), Attempts(calls), now);
  }

  /** Admissions are among the arrivals. */
  lemma {:induction false} FewerAdmittedThanArrived(arrivals: seq<int>, max: int, window: int, cutoff: int)
    ensures |After(Admitted(arrivals, max, window), cutoff)| <= |After(arrivals, cutoff)|
  {
    if arrivals != [] {
      var n := |arrivals| - 1;
      var earlier, t := arrivals[..n], arrivals[n];
      FewerAdmittedThanArrived(earlier, max, window, cutoff);
      assert arrivals == earlier + [t];
      AdmittedOneMore(earlier, t, max, window);
      AfterAppend(earlier, t, cutoff);
      AfterAppend(Admitted(earlier, max, window), t, cutoff);
    }
  }

  /** Calls of one agent under a constant limit. */
  function Steady(arrivals: seq<int>, rpm: int): (c: seq<Call>)
    ensures |c| == |arrivals|
  {
    seq(|arrivals|, i requires 0 <= i < |arrivals| => Call(rpm, arrivals[i]))
  }

  lemma {:induction false} SteadyAttempts(arrivals: seq<int>, rpm: int)
    requires rpm > 0
    ensures Attempts(Steady(arrivals, rpm)) == arrivals
  {
    if arrivals != [] {
      var n := |arrivals| - 1;
      SteadyAttempts(arrivals[..n], rpm);
      assert Steady(arrivals, rpm)[..n] == Steady(arrivals[..n], rpm);
    }
  }

  /** On the same arrivals, whatever Redis lets through the in-memory limiter with a one-minute window and the same limit lets through. */
  lemma RedisIsStricter(arrivals: seq<int>, now: int, rpm: int)
    requires Ordered(arrivals) && (arrivals == [] || arrivals[|arrivals| - 1] <= now) && rpm > 0
    ensures Answer(Steady(arrivals, rpm), rpm, now) ==> |After(Admitted(arrivals, rpm, WINDOW_MS), now - WINDOW_MS)| < rpm
  {
    SteadyAttempts(arrivals, rpm);
    CountsEveryAttempt(Steady(arrivals, rpm), rpm, now);
    FewerAdmittedThanArrived(arrivals, rpm, WINDOW_MS, now - WINDOW_MS);
  }

  /** And strictly so: an attempt Redis denied half a minute ago still blocks, where the in-memory limiter admits. */
  lemma RedisPenalisesDenied()
    ensures !Answer(Steady([0, 30_000], 1), 1, 61_000)
    ensures |After(Admitted([0, 30_000], 1, WINDOW_MS), 61_000 - WINDOW_MS)| < 1
  {
    SteadyAttempts([0, 30_000], 1);
    CountsEveryAttempt(Steady([0, 30_000], 1), 1, 61_000);
    assert After([30_000], 1_000) == [30_000] && After([0, 30_000], 1_000) == [30_000];
    AdmittedOneMore([], 0, 1, WINDOW_MS);
    assert [] + [0] == [0] && Admitted([0], 1, WINDOW_MS) == [0];
    assert After([0], -30_000) == [0];
    AdmittedOneMore([0], 30_000, 1, WINDOW_MS);
    assert [0] + [30_000] == [0, 30_000];
  }
}
