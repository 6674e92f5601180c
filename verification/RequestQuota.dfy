/**
 The limits on new access requests: a daily maximum and a cool-down per requester and
 secret. Both are counted over the rows that earlier requests left, each in a statement
 of its own before the one that inserts; every statement is one step, at its own time.
 */
module RequestQuota {
  import opened PolicyParameters
  import opened CustomPolicy

  // ---- Statements ---------------------------------------------------------------

  /** Times are in microseconds, as the database keeps them. */
  const MINUTE := 60_000_000
  const DAY := 1440 * MINUTE

  type Id = nat

  /** A call by one requester for one secret, under the policy then in force. */
  datatype Call = Call(policy: Params, reasonLength: nat, asked: int)

  datatype Row = Row(at: int, policy: Params)

  /** How far a handler has come: nothing counted, the day counted, or clear to insert; with the times of the counts. */
  datatype Stage = Started | DayCounted(dayAt: int) | Clear(dayAt: int, recentAt: int)

  datatype Handler = Handler(call: Call, stage: Stage)

  datatype State = State(now: int, rows: seq<Row>, handlers: map<Id, Handler>)

  const EMPTY := State(0, [], map[])

  /** Rows created from one time to another, both included. */
  function Count(rows: seq<Row>, from: int, to: int): nat {
    if rows == [] then 0
    else Count(rows[..|rows| - 1], from, to) + if from <= rows[|rows| - 1].at <= to then 1 else 0
  }

  /** Rows created at or after a time. */
  function CountSince(rows: seq<Row>, from: int): nat {
    if rows == [] then 0
    else CountSince(rows[..|rows| - 1], from) + if from <= rows[|rows| - 1].at then 1 else 0
  }

  predicate Short(call: Call) {
    call.policy.requireReason && call.reasonLength < call.policy.minReason
  }

  datatype Step =
    | Tick(microseconds: nat)
    | Start(h: Id, call: Call)
    | CountDay(h: Id)
    | CountRecent(h: Id)
    | Insert(h: Id)
    | Crash(h: Id)

  function OnCountDay(s: State, h: Id): State {
    if h !in s.handlers || !s.handlers[h].stage.Started? then s
    else
      var policy := s.handlers[h].call.policy;
      if CountSince(s.rows, s.now - DAY) >= policy.maxRequests then s.(handlers := s.handlers - {h})
      else
        var stage := if policy.coolDown > 0 then DayCounted(s.now) else Clear(s.now, s.now);
        s.(handlers := s.handlers[h := s.handlers[h].(stage := stage)])
  }

  function OnCountRecent(s: State, h: Id): State {
    if h !in s.handlers || !s.handlers[h].stage.DayCounted? then s
    else if CountSince(s.rows, s.now - MINUTE * s.handlers[h].call.policy.coolDown) > 0 then s.(handlers := s.handlers - {h})
    else s.(handlers := s.handlers[h := s.handlers[h].(stage := Clear(s.handlers[h].stage.dayAt, s.now))])
  }

  function OnInsert(s: State, h: Id): State {
    if h !in s.handlers || !s.handlers[h].stage.Clear? then s
    else s.(rows := s.rows + [Row(s.now, s.handlers[h].call.policy)], handlers := s.handlers - {h})
  }

  function Next(s: State, step: Step): State {
    match step
    case Tick(d) => s.(now := s.now + d)
    case Start(h, call) => if h in s.handlers || Short(call) then s else s.(handlers := s.handlers[h := Handler(call, Started)])
    case CountDay(h) => OnCountDay(s, h)
    case CountRecent(h) => OnCountRecent(s, h)
    case Insert(h) => OnInsert(s, h)
    case Crash(h) => s.(handlers := s.handlers - {h})
  }

  function Run(s: State, steps: seq<Step>): State
    decreases |steps|
  {
    if steps == [] then s else Run(Next(s, steps[0]), steps[1..])
  }

  /** The handlers between their first count and their insert. */
  function InFlight(s: State): set<Id> {
    set h | h in s.handlers && !s.handlers[h].stage.Started?
  }

  /** At no point of the run are more than k handlers between count and insert. */
  predicate Overlap(s: State, steps: seq<Step>, k: nat)
    decreases |steps|
  {
    |InFlight(s)| <= k && (steps == [] || Overlap(Next(s, steps[0]), steps[1..], k))
  }

  // ---- A limit holds up to the overlap ----------------------------------------------

  /** The two limits are alike: fewer than a number of rows in the time before the count. */
  datatype Quota = Daily | CoolDown

  function Width(q: Quota, coolDown: int): int {
    if q.Daily? then DAY else MINUTE * coolDown
  }

  /** The handler has passed the count of q, at the given time or before. */
  predicate Passed(q: Quota, h: Handler, to: int) {
    if q.Daily? then !h.stage.Started? && h.stage.dayAt <= to else h.stage.Clear? && h.stage.recentAt <= to
  }

  function Reserved(s: State, q: Quota, to: int): set<Id> {
    set h | h in s.handlers && Passed(q, s.handlers[h], to)
  }

  /** Rows in a window, with the handlers that may still insert into it. */
  function Claimed(s: State, q: Quota, from: int, to: int): nat {
    Count(s.rows, from, to) + |Reserved(s, q, to)|
  }

  /** What the count of q lets pass: one less than the limit. */
  function Spare(q: Quota, limit: int): int {
    if q.Daily? then limit - 1 else 0
  }

  /** Every handler is under the same setting of q, and has not counted in the future. */
  ghost predicate Under(s: State, q: Quota, limit: int, coolDown: int) {
    forall h :: h in s.handlers ==>
      && CallUnder(s.handlers[h].call, q, limit, coolDown)
      && (s.handlers[h].stage.DayCounted? ==> s.handlers[h].stage.dayAt <= s.now)
      && (s.handlers[h].stage.Clear? ==> s.handlers[h].stage.dayAt <= s.now && s.handlers[h].stage.recentAt <= s.now)
  }

  predicate CallUnder(call: Call, q: Quota, limit: int, coolDown: int) {
    if q.Daily? then call.policy.maxRequests == limit else call.policy.coolDown == coolDown && coolDown > 0
  }

  lemma CountOneMore(rows: seq<Row>, row: Row, from: int, to: int)
    ensures Count(rows + [row], from, to) == Count(rows, from, to) + if from <= row.at <= to then 1 else 0
  {
    assert (rows + [row])[..|rows|] == rows;
  }

  lemma {:induction false} CountOfWindow(rows: seq<Row>, from: int, to: int, since: int)
    requires since <= from
    ensures Count(rows, from, to) <= CountSince(rows, since)
  {
    if rows != [] {
      CountOfWindow(rows[..|rows| - 1], from, to, since);
    }
  }

  lemma FewerOf(a: set<Id>, b: set<Id>)
    requires a <= b
    ensures |a| <= |b|
  {
    assert b == a + (b - a);
  }

  lemma InsertReserves(s: State, q: Quota, limit: int, coolDown: int, h: Id, to: int)
    requires Under(s, q, limit, coolDown) && OnInsert(s, h) != s
    ensures Reserved(OnInsert(s, h), q, to) == Reserved(s, q, to) - {h}
    ensures s.now <= to ==> h in Reserved(s, q, to)
  {
  }

  lemma InsertClaims(s: State, q: Quota, limit: int, coolDown: int, h: Id, from: int, to: int)
    requires Under(s, q, limit, coolDown)
    ensures Claimed(OnInsert(s, h), q, from, to) <= Claimed(s, q, from, to)
  {
    var n := OnInsert(s, h);
    if n != s {
      CountOneMore(s.rows, Row(s.now, s.handlers[h].call.policy), from, to);
      InsertReserves(s, q, limit, coolDown, h, to);
      if s.now > to || s.now < from {
        FewerOf(Reserved(n, q, to), Reserved(s, q, to));
      }
    }
  }

  /** A count either leaves a window's claims alone, or has just seen that the window is not full. */
  lemma CountClaims(s: State, q: Quota, limit: int, coolDown: int, step: Step, from: int, k: nat)
    requires Under(s, q, limit, coolDown) && !step.Insert? && (step.Start? ==> CallUnder(step.call, q, limit, coolDown))
    requires |InFlight(Next(s, step))| <= k && k >= 1
    ensures var to := from + Width(q, coolDown);
      Claimed(Next(s, step), q, from, to) <= Claimed(s, q, from, to) || Claimed(Next(s, step), q, from, to) <= Spare(q, limit) + k
  {
    var n, to := Next(s, step), from + Width(q, coolDown);
    if Reserved(n, q, to) <= Reserved(s, q, to) {
      FewerOf(Reserved(n, q, to), Reserved(s, q, to));
    } else {
      FewerOf(Reserved(n, q, to), InFlight(n));
      CountOfWindow(s.rows, from, to, s.now - Width(q, coolDown));
      NewlyPassed(s, q, limit, coolDown, step, to);
    }
  }

  lemma NewlyPassed(s: State, q: Quota, limit: int, coolDown: int, step: Step, to: int)
    requires Under(s, q, limit, coolDown) && !step.Insert? && !(Reserved(Next(s, step), q, to) <= Reserved(s, q, to))
    ensures s.now <= to && CountSince(s.rows, s.now - Width(q, coolDown)) <= Spare(q, limit)
  {
    var h :| h in Reserved(Next(s, step), q, to) && h !in Reserved(s, q, to);
    assert h in s.handlers;
  }

  lemma StepKeepsUnder(s: State, q: Quota, limit: int, coolDown: int, step: Step)
    requires Under(s, q, limit, coolDown) && (step.Start? ==> CallUnder(step.call, q, limit, coolDown))
    ensures Under(Next(s, step), q, limit, coolDown)
  {
  }

  lemma {:induction false} ClaimsAreBounded(s: State, q: Quota, limit: int, coolDown: int, steps: seq<Step>, k: nat, from: int)
    requires Under(s, q, limit, coolDown) && Overlap(s, steps, k) && k >= 1
    requires forall i :: 0 <= i < |steps| && steps[i].Start? ==> CallUnder(steps[i].call, q, limit, coolDown)
    requires Claimed(s, q, from, from + Width(q, coolDown)) <= Spare(q, limit) + k
    ensures Claimed(Run(s, steps), q, from, from + Width(q, coolDown)) <= Spare(q, limit) + k
    decreases |steps|
  {
    if steps != [] {
      var step := steps[0];
      StepKeepsUnder(s, q, limit, coolDown, step);
      if step.Insert? {
        InsertClaims(s, q, limit, coolDown, step.h, from, from + Width(q, coolDown));
      } else {
        CountClaims(s, q, limit, coolDown, step, from, k);
      }
      ClaimsAreBounded(Next(s, step), q, limit, coolDown, steps[1..], k, from);
    }
  }

  /** With at most k calls between count and insert at a time, no closed 24-hour window ever holds more than the daily maximum and k - 1 requests. */
  lemma DailyLimitUpToOverlap(steps: seq<Step>, limit: int, k: nat, from: int)
    requires limit >= 1 && k >= 1 && Overlap(EMPTY, steps, k)
    requires forall i :: 0 <= i < |steps| && steps[i].Start? ==> steps[i].call.policy.maxRequests == limit
    ensures Count(Run(EMPTY, steps).rows, from, from + 86_400_000_000) <= limit + k - 1
  {
    ClaimsAreBounded(EMPTY, Daily, limit, 0, steps, k, from);
  }

  /** In the same runs no closed window as long as the cool-down holds more than k requests. */
  lemma CoolDownUpToOverlap(steps: seq<Step>, coolDown: int, k: nat, from: int)
    requires coolDown > 0 && k >= 1 && Overlap(EMPTY, steps, k)
    requires forall i :: 0 <= i < |steps| && steps[i].Start? ==> steps[i].call.policy.coolDown == coolDown
    ensures Count(Run(EMPTY, steps).rows, from, from + 60_000_000 * coolDown) <= k
  {
    ClaimsAreBounded(EMPTY, CoolDown, 0, coolDown, steps, k, from);
  }

  // ---- Runs without overlap -----------------------------------------------------------

  /** With no two calls between count and insert at once, the daily maximum holds in every closed 24-hour window. */
  lemma DailyLimitHolds(steps: seq<Step>, limit: int, from: int)
    requires limit >= 1 && Overlap(EMPTY, steps, 1)
    requires forall i :: 0 <= i < |steps| && steps[i].Start? ==> steps[i].call.policy.maxRequests == limit
    ensures Count(Run(EMPTY, steps).rows, from, from + 86_400_000_000) <= limit
  {
    DailyLimitUpToOverlap(steps, limit, 1, from);
  }

  /** Each row came more than its cool-down after every row before it, and whoever is clear to insert would too. */
  ghost predicate GapsOk(s: State) {
    && (forall i, j :: 0 <= i < j < |s.rows| && s.rows[j].policy.coolDown > 0 ==>
          s.rows[j].at - s.rows[i].at > MINUTE * s.rows[j].policy.coolDown)
    && (forall h, i :: h in s.handlers && 0 <= i < |s.rows| ==> GapOk(s, s.handlers[h], s.rows[i]))
  }

  predicate GapOk(s: State, h: Handler, row: Row) {
    h.stage.Clear? && h.call.policy.coolDown > 0 ==> s.now - row.at > MINUTE * h.call.policy.coolDown
  }

  lemma {:induction false} CountSinceZero(rows: seq<Row>, from: int, i: nat)
    requires CountSince(rows, from) == 0 && i < |rows|
    ensures rows[i].at < from
  {
    if i < |rows| - 1 {
      CountSinceZero(rows[..|rows| - 1], from, i);
    }
  }

  lemma OneInFlight(s: State, h: Id, g: Id)
    requires |InFlight(s)| <= 1 && h in InFlight(s) && g in InFlight(s)
    ensures h == g
  {
    if h != g {
      FewerOf({h, g}, InFlight(s));
    }
  }

  lemma StepKeepsGaps(s: State, step: Step)
    requires GapsOk(s) && |InFlight(s)| <= 1
    ensures GapsOk(Next(s, step))
  {
    var n := Next(s, step);
    forall h, i | h in n.handlers && 0 <= i < |n.rows| ensures GapOk(n, n.handlers[h], n.rows[i]) {
      if step.Insert? && n != s {
        if n.handlers[h].stage.Clear? {
          OneInFlight(s, h, step.h);
        }
      } else if step.CountRecent? && h == step.h && s.handlers[h].stage.DayCounted? {
        CountSinceZero(s.rows, s.now - MINUTE * s.handlers[h].call.policy.coolDown, i);
      } else {
        assert h in s.handlers ==> GapOk(s, s.handlers[h], s.rows[i]);
      }
    }
    if step.Insert? && n != s {
      forall i | 0 <= i < |s.rows| ensures GapOk(s, s.handlers[step.h], s.rows[i]) {
      }
    }
  }

  lemma {:induction false} RunKeepsGaps(s: State, steps: seq<Step>)
    requires GapsOk(s) && Overlap(s, steps, 1)
    ensures GapsOk(Run(s, steps))
    decreases |steps|
  {
    if steps != [] {
      StepKeepsGaps(s, steps[0]);
      RunKeepsGaps(Next(s, steps[0]), steps[1..]);
    }
  }

  /** With no two calls between count and insert at once, requests are strictly further apart than the cool-down the later one met. */
  lemma CoolDownHolds(steps: seq<Step>, i: nat, j: nat)
    requires Overlap(EMPTY, steps, 1)
    requires i < j < |Run(EMPTY, steps).rows| && Run(EMPTY, steps).rows[j].policy.coolDown > 0
    ensures Run(EMPTY, steps).rows[j].at - Run(EMPTY, steps).rows[i].at > 60_000_000 * Run(EMPTY, steps).rows[j].policy.coolDown
  {
    RunKeepsGaps(EMPTY, steps);
  }

  /** k rows in a window are spread over at least k - 1 gaps. */
  lemma {:induction false} Spread(rows: seq<Row>, from: int, to: int, gap: int)
    requires gap >= 0 && Count(rows, from, to) > 0
    requires forall i, j :: 0 <= i < j < |rows| ==> rows[j].at - rows[i].at >= gap
    ensures exists i :: 0 <= i < |rows| && from <= rows[i].at <= to && (Count(rows, from, to) - 1) * gap <= rows[i].at - from
  {
    var before := rows[..|rows| - 1];
    if Count(before, from, to) > 0 {
      Spread(before, from, to, gap);
      var i :| 0 <= i < |before| && from <= before[i].at <= to && (Count(before, from, to) - 1) * gap <= before[i].at - from;
      assert rows[|rows| - 1].at - rows[i].at >= gap;
      assert before[i] == rows[i];
      OneGapMore(Count(before, from, to), gap);
    }
    assert Count(rows, from, to) == Count(before, from, to) + if from <= rows[|rows| - 1].at <= to then 1 else 0;
  }

  lemma OneGapMore(k: int, gap: int)
    ensures k * gap == (k - 1) * gap + gap
  {
  }

  function CeilDiv(a: int, b: int): int
    requires b > 0
  {
    (a + b - 1) / b
  }

  lemma CeilBound(k: int, coolDown: int)
    requires coolDown > 0 && k >= 1 && (k - 1) * (MINUTE * coolDown + 1) <= DAY
    ensures k <= CeilDiv(1440, coolDown)
  {
    var m := k - 1;
    assert m * (MINUTE * coolDown + 1) == MINUTE * (m * coolDown) + m;
    assert m * coolDown < 1440 || m == 0;
    assert m * coolDown + 1 <= 1440 || m == 0;
    assert m < CeilDiv(1440, coolDown);
  }

  lemma {:induction false} RowsUnder(s: State, steps: seq<Step>, coolDown: int)
    requires forall i :: 0 <= i < |s.rows| ==> s.rows[i].policy.coolDown == coolDown
    requires forall h :: h in s.handlers ==> s.handlers[h].call.policy.coolDown == coolDown
    requires forall i :: 0 <= i < |steps| && steps[i].Start? ==> steps[i].call.policy.coolDown == coolDown
    ensures forall i :: 0 <= i < |Run(s, steps).rows| ==> Run(s, steps).rows[i].policy.coolDown == coolDown
    decreases |steps|
  {
    if steps != [] {
      RowsUnder(Next(s, steps[0]), steps[1..], coolDown);
    }
  }

  /** With a cool-down of c minutes and no overlap, no closed 24-hour window ever holds more than 1440 / c requests, rounded up. */
  lemma CoolDownBoundsTheDay(steps: seq<Step>, coolDown: int, from: int)
    requires coolDown > 0 && Overlap(EMPTY, steps, 1)
    requires forall i :: 0 <= i < |steps| && steps[i].Start? ==> steps[i].call.policy.coolDown == coolDown
    ensures Count(Run(EMPTY, steps).rows, from, from + DAY) <= CeilDiv(1440, coolDown)
  {
    RowsUnder(EMPTY, steps, coolDown);
    var rows := Run(EMPTY, steps).rows;
    forall i, j | 0 <= i < j < |rows| ensures rows[j].at - rows[i].at >= MINUTE * coolDown + 1 {
      CoolDownHolds(steps, i, j);
    }
    if Count(rows, from, from + DAY) > 0 {
      Spread(rows, from, from + DAY, MINUTE * coolDown + 1);
      CeilBound(Count(rows, from, from + DAY), coolDown);
    }
  }

  /** A handler that crashes inserts nothing, however far it came. */
  lemma CrashedInsertsNothing(s: State, h: Id)
    ensures var n := Next(s, Crash(h)); h !in n.handlers && n.rows == s.rows && Next(n, Insert(h)) == n
  {
  }

  // ---- Limits lift -------------------------------------------------------------------

  lemma {:induction false} NoneSince(rows: seq<Row>, from: int)
    requires forall i :: 0 <= i < |rows| ==> rows[i].at < from
    ensures CountSince(rows, from) == 0
  {
    if rows != [] {
      NoneSince(rows[..|rows| - 1], from);
    }
  }

  /** With nothing to count, a call goes through. */
  lemma NothingCounted(s: State, h: Id, call: Call)
    requires h !in s.handlers && !Short(call) && call.policy.maxRequests >= 1
    requires CountSince(s.rows, s.now - DAY) == 0 && CountSince(s.rows, s.now - MINUTE * call.policy.coolDown) == 0
    ensures Run(s, [Start(h, call), CountDay(h), CountRecent(h), Insert(h)])
         == State(s.now, s.rows + [Row(s.now, call.policy)], s.handlers)
  {
    FourSteps(s, Start(h, call), CountDay(h), CountRecent(h), Insert(h));
    CountsFindNothing(s, h, call);
    var clear := s.(handlers := s.handlers[h := Handler(call, Clear(s.now, s.now))]);
    InsertsAndGoes(clear, h, s.handlers);
  }

  lemma CountsFindNothing(s: State, h: Id, call: Call)
    requires h !in s.handlers && !Short(call) && call.policy.maxRequests >= 1
    requires CountSince(s.rows, s.now - DAY) == 0 && CountSince(s.rows, s.now - MINUTE * call.policy.coolDown) == 0
    ensures Next(Next(Next(s, Start(h, call)), CountDay(h)), CountRecent(h)) == s.(handlers := s.handlers[h := Handler(call, Clear(s.now, s.now))])
  {
    var started := Next(s, Start(h, call));
    var counted := Next(started, CountDay(h));
    assert started.handlers[h] == Handler(call, Started);
    assert counted.handlers == s.handlers[h := Handler(call, if call.policy.coolDown > 0 then DayCounted(s.now) else Clear(s.now, s.now))];
  }

  lemma InsertsAndGoes(s: State, h: Id, others: map<Id, Handler>)
    requires h in s.handlers && s.handlers[h].stage.Clear? && h !in others && s.handlers == others[h := s.handlers[h]]
    ensures Next(s, Insert(h)) == State(s.now, s.rows + [Row(s.now, s.handlers[h].call.policy)], others)
  {
    assert s.handlers - {h} == others;
  }

  /** A day after everything that was, a call that gives its reason goes through. */
  lemma WaitingHelps(s: State, h: Id, call: Call, wait: nat)
    requires h !in s.handlers && !Short(call) && Canonical(call.policy)
    requires (forall i :: 0 <= i < |s.rows| ==> s.rows[i].at <= s.now) && wait > DAY
    ensures Run(Next(s, Tick(wait)), [Start(h, call), CountDay(h), CountRecent(h), Insert(h)])
         == State(s.now + wait, s.rows + [Row(s.now + wait, call.policy)], s.handlers)
  {
    NoneSince(s.rows, s.now + wait - DAY);
    NoneSince(s.rows, s.now + wait - MINUTE * call.policy.coolDown);
    NothingCounted(Next(s, Tick(wait)), h, call);
  }

  // ---- The overlap is felt in full ------------------------------------------------------

  lemma {:induction false} Continues(s: State, a: seq<Step>, b: seq<Step>, k: nat)
    requires Overlap(s, a, k) && Overlap(Run(s, a), b, k)
    ensures Overlap(s, a + b, k) && Run(s, a + b) == Run(Run(s, a), b)
    decreases |a|
  {
    if a == [] {
      assert a + b == b;
    } else {
      assert (a + b)[0] == a[0] && (a + b)[1..] == a[1..] + b;
      Continues(Next(s, a[0]), a[1..], b, k);
    }
  }

  /** n rows of one policy, all created at once. */
  function Together(policy: Params, n: nat): seq<Row> {
    seq(n, _ => Row(0, policy))
  }

  lemma {:induction false} TogetherCount(policy: Params, n: nat, from: int, to: int)
    requires from <= 0 <= to
    ensures Count(Together(policy, n), from, to) == n && CountSince(Together(policy, n), from) == n
  {
    if n > 0 {
      assert Together(policy, n)[..n - 1] == Together(policy, n - 1);
      TogetherCount(policy, n - 1, from, to);
    }
  }

  /** Handlers 0 to n - 1, all clear to insert. */
  function AllClear(call: Call, n: nat): (handlers: map<Id, Handler>)
    ensures forall h :: h in handlers ==> h < n && handlers[h] == Handler(call, Clear(0, 0))
  {
    if n == 0 then map[] else AllClear(call, n - 1)[n - 1 := Handler(call, Clear(0, 0))]
  }

  lemma {:induction false} ClearCount(call: Call, rows: seq<Row>, n: nat)
    ensures |InFlight(State(0, rows, AllClear(call, n)))| == n
  {
    var s := State(0, rows, AllClear(call, n));
    if n == 0 {
      assert InFlight(s) == {};
    } else {
      ClearCount(call, rows, n - 1);
      assert InFlight(s) == InFlight(State(0, rows, AllClear(call, n - 1))) + {n - 1};
    }
  }

  lemma ThreeSteps(s: State, a: Step, b: Step, c: Step, k: nat)
    requires |InFlight(s)| <= k && |InFlight(Next(s, a))| <= k && |InFlight(Next(Next(s, a), b))| <= k
    requires |InFlight(Next(Next(Next(s, a), b), c))| <= k
    ensures Overlap(s, [a, b, c], k) && Run(s, [a, b, c]) == Next(Next(Next(s, a), b), c)
  {
    var s1 := Next(s, a);
    var s2 := Next(s1, b);
    var s3 := Next(s2, c);
    assert [a, b, c][1..] == [b, c] && [b, c][1..] == [c] && [c][1..] == [];
    assert Overlap(s3, [], k) && Overlap(s2, [c], k) && Overlap(s1, [b, c], k);
    assert Run(s2, [c]) == Run(s3, []) && Run(s1, [b, c]) == Run(s2, [c]);
  }

  lemma CountsPass(call: Call, rows: seq<Row>, n: nat)
    requires !Short(call) && CountSince(rows, -DAY) < call.policy.maxRequests && (call.policy.coolDown > 0 ==> rows == [])
    ensures var s := State(0, rows, AllClear(call, n));
      Next(Next(Next(s, Start(n, call)), CountDay(n)), CountRecent(n)) == State(0, rows, AllClear(call, n + 1))
  {
    var s := State(0, rows, AllClear(call, n));
    var s1 := Next(s, Start(n, call));
    assert n !in s.handlers && s1.handlers == s.handlers[n := Handler(call, Started)];
    var s3 := Next(Next(s1, CountDay(n)), CountRecent(n));
    assert s3.handlers == AllClear(call, n + 1);
  }

  /** One more handler passes its counts while the others wait to insert. */
  lemma OneMoreClear(call: Call, rows: seq<Row>, n: nat, k: nat)
    requires !Short(call) && n < k && CountSince(rows, -DAY) < call.policy.maxRequests
    requires call.policy.coolDown > 0 ==> rows == []
    ensures var s := State(0, rows, AllClear(call, n));
      var steps := [Start(n, call), CountDay(n), CountRecent(n)];
      Overlap(s, steps, k) && Run(s, steps) == State(0, rows, AllClear(call, n + 1))
  {
    var s := State(0, rows, AllClear(call, n));
    ClearCount(call, rows, n);
    ClearCount(call, rows, n + 1);
    CountsPass(call, rows, n);
    var s1 := Next(s, Start(n, call));
    FewerOf(InFlight(s1), InFlight(s));
    FewerOf(InFlight(Next(s1, CountDay(n))), InFlight(s) + {n});
    ThreeSteps(s, Start(n, call), CountDay(n), CountRecent(n), k);
  }

  lemma {:induction false} AllBecomeClear(call: Call, rows: seq<Row>, n: nat, k: nat) returns (steps: seq<Step>)
    requires !Short(call) && n <= k && CountSince(rows, -DAY) < call.policy.maxRequests
    requires call.policy.coolDown > 0 ==> rows == []
    ensures Overlap(State(0, rows, map[]), steps, k) && Run(State(0, rows, map[]), steps) == State(0, rows, AllClear(call, n))
  {
    if n == 0 {
      steps := [];
      ClearCount(call, rows, 0);
    } else {
      steps := AllBecomeClear(call, rows, n - 1, k);
      var more := [Start(n - 1, call), CountDay(n - 1), CountRecent(n - 1)];
      OneMoreClear(call, rows, n - 1, k);
      Continues(State(0, rows, map[]), steps, more, k);
      steps := steps + more;
    }
  }

  lemma {:induction false} AllInsert(call: Call, m: nat, n: nat, k: nat) returns (steps: seq<Step>)
    requires n <= k
    ensures var s := State(0, Together(call.policy, m), AllClear(call, n));
      Overlap(s, steps, k) && Run(s, steps) == State(0, Together(call.policy, m + n), map[])
    decreases n
  {
    var s := State(0, Together(call.policy, m), AllClear(call, n));
    ClearCount(call, Together(call.policy, m), n);
    if n == 0 {
      steps := [];
    } else {
      var rest := AllInsert(call, m + 1, n - 1, k);
      steps := [Insert(n - 1)] + rest;
      assert Together(call.policy, m) + [Row(0, call.policy)] == Together(call.policy, m + 1);
      assert s.handlers - {n - 1} == AllClear(call, n - 1);
      assert steps[0] == Insert(n - 1) && steps[1..] == rest;
    }
  }

  /** n calls one after the other. */
  lemma {:induction false} OneByOne(call: Call, n: nat) returns (steps: seq<Step>)
    requires !Short(call) && n <= call.policy.maxRequests && call.policy.coolDown <= 0
    ensures Overlap(EMPTY, steps, 1) && Run(EMPTY, steps) == State(0, Together(call.policy, n), map[])
  {
    if n == 0 {
      steps := [];
      assert InFlight(EMPTY) == {};
    } else {
      steps := OneByOne(call, n - 1);
      TogetherCount(call.policy, n - 1, -DAY, 0);
      var s := State(0, Together(call.policy, n - 1), map[]);
      var count := AllBecomeClear(call, Together(call.policy, n - 1), 1, 1);
      var insert := AllInsert(call, n - 1, 1, 1);
      Continues(s, count, insert, 1);
      Continues(EMPTY, steps, count + insert, 1);
      steps := steps + (count + insert);
    }
  }

  lemma {:induction false} MoreOverlap(s: State, steps: seq<Step>, j: nat, k: nat)
    requires Overlap(s, steps, j) && j <= k
    ensures Overlap(s, steps, k)
    decreases |steps|
  {
    if steps != [] {
      MoreOverlap(Next(s, steps[0]), steps[1..], j, k);
    }
  }

  /** k calls that overlap do reach the bound: limit + k - 1 rows at one instant without a cool-down, and k rows with one. */
  lemma OverlapReachesBound(call: Call, k: nat) returns (steps: seq<Step>)
    requires !Short(call) && call.policy.maxRequests >= 1 && k >= 1
    ensures Overlap(EMPTY, steps, k)
    ensures var n := if call.policy.coolDown > 0 then k else call.policy.maxRequests - 1 + k;
      Run(EMPTY, steps).rows == Together(call.policy, n) && Count(Run(EMPTY, steps).rows, 0, 0) == n
  {
    var m := if call.policy.coolDown > 0 then 0 else call.policy.maxRequests - 1;
    if call.policy.coolDown > 0 {
      steps := [];
      assert InFlight(EMPTY) == {};
    } else {
      steps := OneByOne(call, m);
      MoreOverlap(EMPTY, steps, 1, k);
    }
    TogetherCount(call.policy, m, -DAY, 0);
    var count := AllBecomeClear(call, Together(call.policy, m), k, k);
    var insert := AllInsert(call, m, k, k);
    Continues(State(0, Together(call.policy, m), map[]), count, insert, k);
    Continues(EMPTY, steps, count + insert, k);
    steps := steps + (count + insert);
    TogetherCount(call.policy, m + k, 0, 0);
  }

  // ---- The whole call --------------------------------------------------------------------

  datatype Verdict = ReasonTooShort | DailyLimit | TooSoon | Created(approved: bool, duration: int)

  class RequestTable {
    var rows: seq<Row>

    constructor ()
      ensures rows == []
    {
      rows := [];
    }

    /** A call that nobody disturbs, at one instant: the statements of one handler. */
    method CreateRequest(call: Call, now: int) returns (v: Verdict)
      modifies this
      ensures State(now, rows, map[]) == Run(State(now, old(rows), map[]), [Start(0, call), CountDay(0), CountRecent(0), Insert(0)])
      ensures v.Created? <==> |rows| == |old(rows)| + 1
      ensures !v.Created? ==> rows == old(rows)
      ensures v.Created? ==> rows == old(rows) + [Row(now, call.policy)] && v.approved == (call.policy.allowAutoApprove && !call.policy.requireApproval)
      ensures Canonical(call.policy) && v.Created? ==>
        v.duration == if 1 <= call.asked <= call.policy.maxDuration then call.asked else call.policy.maxDuration
      ensures v.ReasonTooShort? <==> Short(call)
      ensures v.DailyLimit? ==> CountSince(old(rows), now - DAY) >= call.policy.maxRequests
      ensures v.TooSoon? ==> CountSince(old(rows), now - MINUTE * call.policy.coolDown) > 0
    {
      FourSteps(State(now, rows, map[]), Start(0, call), CountDay(0), CountRecent(0), Insert(0));
      if call.policy.requireReason && call.reasonLength < call.policy.minReason {
        return ReasonTooShort;
      }
      var duration := call.asked;
      if duration <= 0 || duration > call.policy.maxDuration {
        duration := call.policy.maxDuration;
      }
      var daily := CountSince(rows, now - DAY);
      if daily >= call.policy.maxRequests {
        return DailyLimit;
      }
      if call.policy.coolDown > 0 {
        var recent := CountSince(rows, now - MINUTE * call.policy.coolDown);
        if recent > 0 {
          return TooSoon;
        }
      }
      rows := rows + [Row(now, call.policy)];
      v := Created(call.policy.allowAutoApprove && !call.policy.requireApproval, duration);
    }
  }

  lemma FourSteps(s: State, a: Step, b: Step, c: Step, d: Step)
    ensures Run(s, [a, b, c, d]) == Next(Next(Next(Next(s, a), b), c), d)
  {
    var steps := [a, b, c, d];
    assert steps[1..] == [b, c, d] && [b, c, d][1..] == [c, d] && [c, d][1..] == [d] && [d][1..] == [];
    var s1 := Next(s, a);
    var s2 := Next(s1, b);
    var s3 := Next(s2, c);
    assert Run(s3, [d]) == Run(Next(s3, d), []);
    assert Run(s1, [b, c, d]) == Run(s2, [c, d]) == Run(s3, [d]);
  }
}
