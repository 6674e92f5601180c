/** The login lockout: failures per e-mail address, pruned on every new failure and swept in the background. */
module LoginLockout {
  import opened SlidingWindow

  const MAX_ATTEMPTS := 5
  /** Fifteen minutes, in milliseconds. */
  const LOCKOUT_WINDOW := 900_000

  predicate Locked(failures: seq<int>, now: int) {
    |After(failures, now - LOCKOUT_WINDOW)| >= MAX_ATTEMPTS
  }

  /** The failures kept after one more at t1, pruned when the clock reads t2. */
  function AfterFailure(failures: seq<int>, t1: int, t2: int): seq<int> {
    After(failures + [t1], t2 - LOCKOUT_WINDOW)
  }

  /** The background pass drops whole entries and prunes none. */
  function AfterSweep<Email>(attempts: map<Email, seq<int>>, now: int): map<Email, seq<int>> {
    map e | e in attempts && |After(attempts[e], now - LOCKOUT_WINDOW)| > 0 :: attempts[e]
  }

  /** How far the login handler gets when the account is not locked. */
  datatype Outcome = NoSuchUser | QueryFailed | Inactive | WrongPassword | Match

  datatype Response = TooManyRequests | Unauthorized | InternalError | Forbidden | LoggedIn

  class LoginLockout<Email(==)> {
    const attempts: Histories<Email>

    ghost predicate Valid()
      reads this, attempts, attempts.repr
    {
      attempts.Valid()
    }

    constructor ()
      ensures Valid() && fresh(attempts) && fresh(attempts.repr) && attempts.seen == map[]
    {
      attempts := new Histories<Email>();
    }

    method IsLocked(email: Email, now: int) returns (locked: bool)
      requires Valid()
      ensures locked <==> |After(Recall(attempts.seen, email), now - 900_000)| >= 5
      ensures locked <==> Locked(Recall(attempts.seen, email), now)
    {
      var recent := attempts.Count(email, now - LOCKOUT_WINDOW);
      locked := recent >= MAX_ATTEMPTS;
    }

    /** The failure is appended to the address's slice, which is then filtered over itself. */
    method RecordFailure(email: Email, t1: int, t2: int)
      requires Valid()
      modifies attempts, attempts.BufferOf(email)
      ensures Valid() && fresh(attempts.repr - old(attempts.repr))
      ensures attempts.seen == old(attempts.seen)[email := AfterFailure(Recall(old(attempts.seen), email), t1, t2)]
    {
      ghost var was := attempts.seen;
      ghost var longer := Recall(was, email) + [t1];
      attempts.Push(email, t1);
      assert Recall(attempts.seen, email) == longer;
      var n := attempts.Prune(email, t2 - LOCKOUT_WINDOW);
      Overwritten(was, email, longer, After(longer, t2 - LOCKOUT_WINDOW));
    }

    method ClearFailures(email: Email)
      requires Valid()
      modifies attempts
      ensures Valid() && attempts.repr == old(attempts.repr) && attempts.seen == old(attempts.seen) - {email}
    {
      attempts.Drop(email);
    }

    method DropIfStale(email: Email, cutoff: int) returns (stale: bool)
      requires Valid() && email in attempts.slices
      modifies attempts
      ensures Valid() && attempts.repr == old(attempts.repr) && stale == (|After(old(attempts.seen)[email], cutoff)| == 0)
      ensures attempts.seen == WithoutStale(old(attempts.seen), email, cutoff)
      ensures old(attempts.slices).Keys - {email} <= attempts.slices.Keys
    {
      var recent := attempts.Count(email, cutoff);
      stale := recent == 0;
      if stale {
        attempts.Drop(email);
      }
    }

    method Cleanup(now: int)
      requires Valid()
      modifies attempts
      ensures Valid() && attempts.repr == old(attempts.repr) && attempts.seen == AfterSweep(old(attempts.seen), now)
    {
      ghost var before := attempts.seen;
      ghost var gone := {};
      var todo := attempts.slices.Keys;
      var cutoff := now - LOCKOUT_WINDOW;
      while todo != {}
        invariant attempts.Valid() && attempts.repr == old(attempts.repr)
        invariant todo <= attempts.slices.Keys && todo <= before.Keys && attempts.seen == before - gone
        invariant Sorted(before, gone, todo, cutoff)
        decreases |todo|
      {
        var email :| email in todo;
        var _ := DropIfStale(email, cutoff);
        SortedOneMore(before, gone, todo, email, cutoff);
        gone := AlsoGone(before, gone, email, cutoff);
        todo := todo - {email};
      }
      SortedOut(before, gone, cutoff, now);
    }

    /** The login handler as one atomic step: the lock is read at t0, a failure recorded at t1 and pruned at t2. */
    method Login(email: Email, outcome: Outcome, t0: int, t1: int, t2: int) returns (r: Response)
      requires Valid()
      modifies attempts, attempts.BufferOf(email)
      ensures Valid() && fresh(attempts.repr - old(attempts.repr))
      ensures r.TooManyRequests? <==> Locked(Recall(old(attempts.seen), email), t0)
      ensures r.Unauthorized? ==>
        attempts.seen == old(attempts.seen)[email := AfterFailure(Recall(old(attempts.seen), email), t1, t2)]
      ensures r.LoggedIn? ==> attempts.seen == old(attempts.seen) - {email}
      ensures !r.Unauthorized? && !r.LoggedIn? ==> attempts.seen == old(attempts.seen)
      ensures !r.TooManyRequests? ==>
        && (r.Unauthorized? <==> outcome.NoSuchUser? || outcome.WrongPassword?)
        && (r.LoggedIn? <==> outcome.Match?)
    {
      var locked := IsLocked(email, t0);
      if locked {
        return TooManyRequests;
      }
      match outcome {
        case NoSuchUser =>
          RecordFailure(email, t1, t2);
          r := Unauthorized;
        case QueryFailed =>
          r := InternalError;
        case Inactive =>
          r := Forbidden;
        case WrongPassword =>
          RecordFailure(email, t1, t2);
          r := Unauthorized;
        case Match =>
          ClearFailures(email);
          r := LoggedIn;
      }
    }
  }

  /** Of the addresses already looked at, the pass has dropped exactly those with nothing recent. */
  ghost predicate Sorted<Email>(before: map<Email, seq<int>>, gone: set<Email>, todo: set<Email>, cutoff: int) {
    && gone <= before.Keys - todo
    && forall e :: e in before && e !in todo ==> (e in gone <==> |After(before[e], cutoff)| == 0)
  }

  ghost function WithoutStale<Email>(seen: map<Email, seq<int>>, email: Email, cutoff: int): map<Email, seq<int>>
    requires email in seen
  {
    if |After(seen[email], cutoff)| == 0 then seen - {email} else seen
  }

  ghost function AlsoGone<Email>(before: map<Email, seq<int>>, gone: set<Email>, email: Email, cutoff: int): set<Email>
    requires email in before
  {
    if |After(before[email], cutoff)| == 0 then gone + {email} else gone
  }

  lemma SortedOneMore<Email>(before: map<Email, seq<int>>, gone: set<Email>, todo: set<Email>, email: Email, cutoff: int)
    requires Sorted(before, gone, todo, cutoff) && email in todo && email in before
    ensures Sorted(before, AlsoGone(before, gone, email, cutoff), todo - {email}, cutoff)
    ensures WithoutStale(before - gone, email, cutoff) == before - AlsoGone(before, gone, email, cutoff)
  {
    assert (before - gone) - {email} == before - (gone + {email});
  }

  lemma SortedOut<Email>(before: map<Email, seq<int>>, gone: set<Email>, cutoff: int, now: int)
    requires Sorted(before, gone, {}, cutoff) && cutoff == now - LOCKOUT_WINDOW
    ensures before - gone == AfterSweep(before, now)
  {
  }

  /** What can happen to the tracker, each under its mutex. */
  datatype Event<Email> = Failed(email: Email, t1: int, t2: int) | Cleared(email: Email) | Swept(at: int)

  /** The tracker's map after a run. */
  function Tracked<Email(==)>(events: seq<Event<Email>>): map<Email, seq<int>> {
    if events == [] then map[] else TrackedNext(Tracked(events[..|events| - 1]), events[|events| - 1])
  }

  function TrackedNext<Email(==)>(before: map<Email, seq<int>>, e: Event<Email>): map<Email, seq<int>> {
    match e
    case Failed(email, t1, t2) => before[email := AfterFailure(Recall(before, email), t1, t2)]
    case Cleared(email) => before - {email}
    case Swept(t) => AfterSweep(before, t)
  }

  /** Every failure of an address since it was last cleared, nothing pruned. */
  function SinceClear<Email(==)>(events: seq<Event<Email>>, email: Email): seq<int> {
    if events == [] then [] else SinceNext(SinceClear(events[..|events| - 1], email), events[|events| - 1], email)
  }

  function SinceNext<Email(==)>(before: seq<int>, e: Event<Email>, email: Email): seq<int> {
    if e.Failed? && e.email == email then before + [e.t1]
    else if e.Cleared? && e.email == email then []
    else before
  }

  /** The clock never runs backwards, within an event or between events, and has not passed now. */
  predicate ClockOk<Email>(events: seq<Event<Email>>, now: int) {
    events == [] ||
    var e, earlier := events[|events| - 1], events[..|events| - 1];
    match e
    case Failed(_, t1, t2) => t1 <= t2 <= now && ClockOk(earlier, t1)
    case Cleared(_) => ClockOk(earlier, now)
    case Swept(t) => t <= now && ClockOk(earlier, t)
  }

  lemma SweepIsFaithful<Email>(attempts: map<Email, seq<int>>, email: Email, full: seq<int>, now: int)
    requires Faithful(Recall(attempts, email), full, now - LOCKOUT_WINDOW)
    ensures Faithful(Recall(AfterSweep(attempts, now), email), full, now - LOCKOUT_WINDOW)
  {
    var cutoff := now - LOCKOUT_WINDOW;
    if email in attempts && |After(attempts[email], cutoff)| == 0 {
      FaithfulForgotten(attempts[email], full, cutoff, cutoff);
    }
  }

  lemma FailureIsFaithful(kept: seq<int>, full: seq<int>, t1: int, t2: int)
    requires Faithful(kept, full, t1 - LOCKOUT_WINDOW) && t1 <= t2
    ensures Faithful(AfterFailure(kept, t1, t2), full + [t1], t2 - LOCKOUT_WINDOW)
  {
    FaithfulAppended(kept, full, t1 - LOCKOUT_WINDOW, t1);
    FaithfulPruned(kept + [t1], full + [t1], t1 - LOCKOUT_WINDOW, t2 - LOCKOUT_WINDOW);
  }

  lemma {:induction false} TrackerIsFaithful<Email>(events: seq<Event<Email>>, email: Email, now: int)
    requires ClockOk(events, now)
    ensures Faithful(Recall(Tracked(events), email), SinceClear(events, email), now - LOCKOUT_WINDOW)
    ensures UpTo(SinceClear(events, email), now)
    decreases |events|
  {
    if events != [] {
      var e, earlier := events[|events| - 1], events[..|events| - 1];
      var kept, full := Recall(Tracked(earlier), email), SinceClear(earlier, email);
      match e {
        case Failed(_, t1, t2) =>
          TrackerIsFaithful(earlier, email, t1);
          FailureIsFaithful(kept, full, t1, t2);
        case Cleared(_) =>
          TrackerIsFaithful(earlier, email, now);
        case Swept(t) =>
          TrackerIsFaithful(earlier, email, t);
          SweepIsFaithful(Tracked(earlier), email, full, t);
      }
    }
  }

  /**
   In any interleaving of failures, clears and background passes an address is locked exactly
   when five failures since its last clear lie in the last fifteen minutes of the full history.
   */
  lemma LockIsExact<Email>(events: seq<Event<Email>>, email: Email, now: int)
    requires ClockOk(events, now)
    ensures Locked(Recall(Tracked(events), email), now) <==> Locked(SinceClear(events, email), now)
    ensures UpTo(SinceClear(events, email), now - LOCKOUT_WINDOW) ==> !Locked(Recall(Tracked(events), email), now)
  {
    TrackerIsFaithful(events, email, now);
    if UpTo(SinceClear(events, email), now - LOCKOUT_WINDOW) {
      AfterNothing(SinceClear(events, email), now - LOCKOUT_WINDOW);
    }
  }

  // ---- Many login handlers ---------------------------------------------------------

  type Id = nat

  /** A handler that has found the address not locked, and is busy with the database and the password. */
  datatype Handler<Email> = Handler(email: Email, checkedAt: int)

  datatype State<Email> = State(now: int, events: seq<Event<Email>>, handlers: map<Id, Handler<Email>>)

  /** Each is one critical section; recording reads the clock twice. A handler leaves without either when the account is inactive or something fails. */
  datatype Step<Email> =
    | Tick(ms: nat)
    | Check(h: Id, email: Email)
    | Record(h: Id, ms: nat)
    | Clear(h: Id)
    | Leave(h: Id)
    | Sweep

  function OnCheck<Email(==)>(s: State<Email>, h: Id, email: Email): State<Email> {
    if h in s.handlers || Locked(Recall(Tracked(s.events), email), s.now) then s
    else s.(handlers := s.handlers[h := Handler(email, s.now)])
  }

  function OnRecord<Email(==)>(s: State<Email>, h: Id, ms: nat): State<Email> {
    if h !in s.handlers then s
    else State(s.now + ms, s.events + [Failed(s.handlers[h].email, s.now, s.now + ms)], s.handlers - {h})
  }

  function OnClear<Email(==)>(s: State<Email>, h: Id): State<Email> {
    if h !in s.handlers then s else s.(events := s.events + [Cleared(s.handlers[h].email)], handlers := s.handlers - {h})
  }

  function Next<Email(==)>(s: State<Email>, step: Step<Email>): State<Email> {
    match step
    case Tick(ms) => s.(now := s.now + ms)
    case Check(h, email) => OnCheck(s, h, email)
    case Record(h, ms) => OnRecord(s, h, ms)
    case Clear(h) => OnClear(s, h)
    case Leave(h) => s.(handlers := s.handlers - {h})
    case Sweep => s.(events := s.events + [Swept(s.now)])
  }

  function Run<Email(==)>(s: State<Email>, steps: seq<Step<Email>>): State<Email>
    decreases |steps|
  {
    if steps == [] then s else Run(Next(s, steps[0]), steps[1..])
  }

  function Start<Email>(): State<Email> {
    State(0, [], map[])
  }

  /** The handlers of an address between check and record. */
  function InFlight<Email(==)>(s: State<Email>, email: Email): set<Id> {
    set h | h in s.handlers && s.handlers[h].email == email
  }

  /** At no point of the run are more than k handlers of the address between check and record. */
  predicate Overlap<Email(==)>(s: State<Email>, steps: seq<Step<Email>>, email: Email, k: nat)
    decreases |steps|
  {
    |InFlight(s, email)| <= k && (steps == [] || Overlap(Next(s, steps[0]), steps[1..], email, k))
  }

  /** What a handler that passed its check leaves: a failure, a clean slate, or nothing. */
  lemma HandlersLeave<Email>(s: State<Email>, h: Id, ms: nat)
    requires h in s.handlers
    ensures var email := s.handlers[h].email;
      && SinceClear(Next(s, Record(h, ms)).events, email) == SinceClear(s.events, email) + [s.now]
      && SinceClear(Next(s, Clear(h)).events, email) == [] && Next(s, Leave(h)).events == s.events
      && h !in Next(s, Record(h, ms)).handlers && h !in Next(s, Clear(h)).handlers && h !in Next(s, Leave(h)).handlers
      && forall other :: other != email ==>
           && SinceClear(Next(s, Record(h, ms)).events, other) == SinceClear(s.events, other)
           && SinceClear(Next(s, Clear(h)).events, other) == SinceClear(s.events, other)
  {
    var email := s.handlers[h].email;
    EventAppended(s.events, Failed(email, s.now, s.now + ms), email);
    EventAppended(s.events, Cleared(email), email);
    forall other | other != email
      ensures SinceClear(Next(s, Record(h, ms)).events, other) == SinceClear(s.events, other)
      ensures SinceClear(Next(s, Clear(h)).events, other) == SinceClear(s.events, other)
    {
      EventAppended(s.events, Failed(email, s.now, s.now + ms), other);
      EventAppended(s.events, Cleared(email), other);
    }
  }

  /** A sweep forgets the addresses without a failure in the last fifteen minutes, and no other. */
  lemma SweepForgets<Email>(s: State<Email>, email: Email)
    ensures var before, after := Tracked(s.events), Tracked(Next(s, Sweep).events);
      && (email in after <==> email in before && |After(before[email], s.now - 900_000)| > 0)
      && (email in after ==> after[email] == before[email])
  {
    var all := s.events + [Swept(s.now)];
    assert all[..|all| - 1] == s.events && all[|all| - 1] == Swept(s.now);
  }

  /** A check passes exactly while fewer than five failures lie in the last fifteen minutes; waiting that long is always enough. */
  lemma ChecksPassIff<Email>(s: State<Email>, h: Id, email: Email, ms: nat)
    requires TimesOk(s) && h !in s.handlers
    ensures h in Next(s, Check(h, email)).handlers <==> |After(SinceClear(s.events, email), s.now - 900_000)| < 5
    ensures ms >= 900_000 ==> h in Next(Next(s, Tick(ms)), Check(h, email)).handlers
  {
    LockIsExact(s.events, email, s.now);
    ClockLater(s.events, s.now, s.now + ms);
    TrackerIsFaithful(s.events, email, s.now);
    LockIsExact(s.events, email, s.now + ms);
  }

  // ---- Five failures, up to the overlap ------------------------------------------------

  /** The clock has run forwards, and no handler has checked in the future. */
  ghost predicate TimesOk<Email>(s: State<Email>) {
    ClockOk(s.events, s.now) && forall h :: h in s.handlers ==> s.handlers[h].checkedAt <= s.now
  }

  lemma ClockLater<Email>(events: seq<Event<Email>>, t: int, now: int)
    requires ClockOk(events, t) && t <= now
    ensures ClockOk(events, now)
    decreases |events|
  {
    if events != [] && events[|events| - 1].Cleared? {
      ClockLater(events[..|events| - 1], t, now);
    }
  }

  lemma EventAppended<Email>(events: seq<Event<Email>>, e: Event<Email>, email: Email)
    ensures (events + [e])[..|events|] == events
    ensures SinceClear(events + [e], email) == SinceNext(SinceClear(events, email), e, email)
  {
    var all := events + [e];
    assert all[..|all| - 1] == events && all[|all| - 1] == e;
  }

  lemma NextKeepsTimes<Email>(s: State<Email>, step: Step<Email>)
    requires TimesOk(s)
    ensures TimesOk(Next(s, step))
  {
    match step
    case Tick(ms) => ClockLater(s.events, s.now, s.now + ms);
    case Record(h, ms) =>
      if h in s.handlers {
        EventAppended(s.events, Failed(s.handlers[h].email, s.now, s.now + ms), s.handlers[h].email);
      }
    case Clear(h) =>
      if h in s.handlers {
        EventAppended(s.events, Cleared(s.handlers[h].email), s.handlers[h].email);
      }
    case Sweep => assert (s.events + [Swept(s.now)])[..|s.events|] == s.events;
    case _ =>
  }

  function Reserved<Email(==)>(s: State<Email>, email: Email, t: int): set<Id> {
    set h | h in s.handlers && s.handlers[h].email == email && s.handlers[h].checkedAt <= t
  }

  /** Failures in the window that ends at t, with the handlers that may still add to it. */
  function Claimed<Email(==)>(s: State<Email>, email: Email, t: int): nat {
    |InWindow(SinceClear(s.events, email), t, LOCKOUT_WINDOW)| + |Reserved(s, email, t)|
  }

  lemma FewerOf(a: set<Id>, b: set<Id>)
    requires a <= b
    ensures |a| <= |b|
  {
    assert b == a + (b - a);
  }

  lemma RoomLater(full: seq<int>, now: int, t: int)
    requires UpTo(full, now) && !Locked(full, now) && now <= t
    ensures |InWindow(full, t, LOCKOUT_WINDOW)| <= MAX_ATTEMPTS - 1
  {
    InWindowIsAfter(full, t, LOCKOUT_WINDOW);
    AfterShrinks(full, now - LOCKOUT_WINDOW, t - LOCKOUT_WINDOW);
  }

  lemma UnlockedHasRoom<Email>(events: seq<Event<Email>>, email: Email, now: int, t: int)
    requires ClockOk(events, now) && !Locked(Recall(Tracked(events), email), now) && now <= t
    ensures |InWindow(SinceClear(events, email), t, LOCKOUT_WINDOW)| <= MAX_ATTEMPTS - 1
  {
    TrackerIsFaithful(events, email, now);
    LockIsExact(events, email, now);
    RoomLater(SinceClear(events, email), now, t);
  }

  /** A check that passes has just seen that no window it can add to is full. */
  lemma CheckClaims<Email>(s: State<Email>, h: Id, email: Email, t: int, k: nat)
    requires TimesOk(s) && |InFlight(OnCheck(s, h, email), email)| <= k && Claimed(s, email, t) <= MAX_ATTEMPTS - 1 + k
    ensures Claimed(OnCheck(s, h, email), email, t) <= MAX_ATTEMPTS - 1 + k
  {
    var n := OnCheck(s, h, email);
    if n != s && s.now <= t {
      FewerOf(Reserved(n, email, t), InFlight(n, email));
      UnlockedHasRoom(s.events, email, s.now, t);
    } else {
      assert Reserved(n, email, t) == Reserved(s, email, t);
    }
  }

  /** A record turns a claim into a failure. */
  lemma RecordClaims<Email>(s: State<Email>, h: Id, ms: nat, email: Email, t: int)
    requires TimesOk(s) && h in s.handlers && s.handlers[h].email == email
    ensures Claimed(OnRecord(s, h, ms), email, t) <= Claimed(s, email, t)
  {
    var n := OnRecord(s, h, ms);
    EventAppended(s.events, Failed(email, s.now, s.now + ms), email);
    InWindowAppend(SinceClear(s.events, email), s.now, t, LOCKOUT_WINDOW);
    assert Reserved(n, email, t) == Reserved(s, email, t) - {h};
    if s.now <= t {
      assert h in Reserved(s, email, t);
    } else {
      FewerOf(Reserved(n, email, t), Reserved(s, email, t));
    }
  }

  lemma ClearClaims<Email>(s: State<Email>, h: Id, email: Email, t: int, k: nat)
    requires h in s.handlers && s.handlers[h].email == email && |InFlight(OnClear(s, h), email)| <= k
    ensures Claimed(OnClear(s, h), email, t) <= k
  {
    EventAppended(s.events, Cleared(email), email);
    FewerOf(Reserved(OnClear(s, h), email, t), InFlight(OnClear(s, h), email));
  }

  /** Whose step it is, if it is one that counts for an address. */
  predicate Concerns<Email(==)>(s: State<Email>, step: Step<Email>, email: Email) {
    match step
    case Check(h, e) => e == email
    case Record(h, _) => h in s.handlers && s.handlers[h].email == email
    case Clear(h) => h in s.handlers && s.handlers[h].email == email
    case _ => false
  }

  lemma OtherClaims<Email>(s: State<Email>, step: Step<Email>, email: Email, t: int)
    requires !Concerns(s, step, email)
    ensures Claimed(Next(s, step), email, t) <= Claimed(s, email, t)
  {
    var n := Next(s, step);
    if n.events != s.events {
      EventAppended(s.events, n.events[|s.events|], email);
    }
    FewerOf(Reserved(n, email, t), Reserved(s, email, t));
  }

  lemma StepClaims<Email>(s: State<Email>, step: Step<Email>, email: Email, t: int, k: nat)
    requires TimesOk(s) && k >= 1 && |InFlight(Next(s, step), email)| <= k && Claimed(s, email, t) <= MAX_ATTEMPTS - 1 + k
    ensures Claimed(Next(s, step), email, t) <= MAX_ATTEMPTS - 1 + k
  {
    if !Concerns(s, step, email) {
      OtherClaims(s, step, email, t);
    } else {
      match step
      case Check(h, _) => CheckClaims(s, h, email, t, k);
      case Record(h, ms) => RecordClaims(s, h, ms, email, t);
      case Clear(h) => ClearClaims(s, h, email, t, k);
    }
  }

  lemma {:induction false} RunClaims<Email>(s: State<Email>, steps: seq<Step<Email>>, email: Email, t: int, k: nat)
    requires TimesOk(s) && k >= 1 && Overlap(s, steps, email, k) && Claimed(s, email, t) <= MAX_ATTEMPTS - 1 + k
    ensures Claimed(Run(s, steps), email, t) <= MAX_ATTEMPTS - 1 + k
    decreases |steps|
  {
    if steps != [] {
      NextKeepsTimes(s, steps[0]);
      StepClaims(s, steps[0], email, t, k);
      RunClaims(Next(s, steps[0]), steps[1..], email, t, k);
    }
  }

  /**
   With at most k login attempts of an address between check and record at a time, no
   fifteen-minute window ever holds more than 5 + k - 1 of its failures between clears.
   */
  lemma FailuresUpToOverlap<Email>(steps: seq<Step<Email>>, email: Email, k: nat)
    requires k >= 1 && Overlap(Start(), steps, email, k)
    ensures Bounded(SinceClear(Run(Start(), steps).events, email), 900_000, 5 + k - 1)
  {
    var full := SinceClear(Run(Start(), steps).events, email);
    forall t ensures |InWindow(full, t, LOCKOUT_WINDOW)| <= MAX_ATTEMPTS + k - 1 {
      assert Reserved(Start<Email>(), email, t) == {};
      RunClaims(Start(), steps, email, t, k);
    }
  }

  /** When an address's attempts do not overlap, no window holds more than five. */
  lemma AtMostFiveFailures<Email>(steps: seq<Step<Email>>, email: Email)
    requires Overlap(Start(), steps, email, 1)
    ensures Bounded(SinceClear(Run(Start(), steps).events, email), 900_000, 5)
  {
    FailuresUpToOverlap(steps, email, 1);
  }

  // ---- The overlap is felt in full -----------------------------------------------------

  lemma {:induction false} Continues<Email>(s: State<Email>, a: seq<Step<Email>>, b: seq<Step<Email>>, email: Email, k: nat)
    requires Overlap(s, a, email, k) && Overlap(Run(s, a), b, email, k)
    ensures Overlap(s, a + b, email, k) && Run(s, a + b) == Run(Run(s, a), b)
    decreases |a|
  {
    if a == [] {
      assert a + b == b;
    } else {
      assert (a + b)[0] == a[0] && (a + b)[1..] == a[1..] + b;
      Continues(Next(s, a[0]), a[1..], b, email, k);
    }
  }

  lemma OneStep<Email>(s: State<Email>, step: Step<Email>, email: Email, k: nat)
    requires |InFlight(s, email)| <= k && |InFlight(Next(s, step), email)| <= k
    ensures Overlap(s, [step], email, k) && Run(s, [step]) == Next(s, step)
  {
    assert [step][1..] == [] && Overlap(Next(s, step), [], email, k) && Run(Next(s, step), []) == Next(s, step);
  }

  /** n failures of one address, all at once. */
  function Fails<Email>(email: Email, n: nat): seq<Event<Email>> {
    seq(n, _ => Failed(email, 0, 0))
  }

  lemma FailsOneMore<Email>(email: Email, n: nat)
    ensures Fails(email, n + 1) == Fails(email, n) + [Failed(email, 0, 0)]
    ensures SinceClear(Fails(email, n + 1), email) == SinceClear(Fails(email, n), email) + [0]
  {
    assert Fails(email, n + 1) == Fails(email, n) + [Failed(email, 0, 0)];
    EventAppended(Fails(email, n), Failed(email, 0, 0), email);
  }

  lemma {:induction false} FailsClock<Email>(email: Email, n: nat)
    ensures ClockOk(Fails(email, n), 0)
  {
    if n > 0 {
      FailsClock(email, n - 1);
      FailsOneMore(email, n - 1);
      EventAppended(Fails(email, n - 1), Failed(email, 0, 0), email);
    }
  }

  lemma {:induction false} FailsCount<Email>(email: Email, n: nat)
    ensures var full := SinceClear(Fails(email, n), email);
      |InWindow(full, 0, LOCKOUT_WINDOW)| == n && |After(full, -LOCKOUT_WINDOW)| == n
  {
    if n > 0 {
      FailsCount(email, n - 1);
      FailsOneMore(email, n - 1);
      CountsOneMore(SinceClear(Fails(email, n - 1), email));
    }
  }

  lemma CountsOneMore(full: seq<int>)
    ensures |InWindow(full + [0], 0, LOCKOUT_WINDOW)| == |InWindow(full, 0, LOCKOUT_WINDOW)| + 1
    ensures |After(full + [0], -LOCKOUT_WINDOW)| == |After(full, -LOCKOUT_WINDOW)| + 1
  {
    InWindowAppend(full, 0, 0, LOCKOUT_WINDOW);
    AfterAppend(full, 0, -LOCKOUT_WINDOW);
  }

  /** Handlers 0 to n - 1, all past their check. */
  function AllChecked<Email>(email: Email, n: nat): (handlers: map<Id, Handler<Email>>)
    ensures forall h :: h in handlers ==> h < n && handlers[h] == Handler(email, 0)
  {
    if n == 0 then map[] else AllChecked(email, n - 1)[n - 1 := Handler(email, 0)]
  }

  /** m failures, with n handlers past their check. */
  function Waiting<Email>(email: Email, m: nat, n: nat): State<Email> {
    State(0, Fails(email, m), AllChecked(email, n))
  }

  lemma {:induction false} WaitingCount<Email>(email: Email, m: nat, n: nat)
    ensures |InFlight(Waiting(email, m, n), email)| == n
  {
    if n == 0 {
      assert InFlight(Waiting(email, m, 0), email) == {};
    } else {
      WaitingCount(email, m, n - 1);
      assert InFlight(Waiting(email, m, n), email) == InFlight(Waiting(email, m, n - 1), email) + {n - 1};
    }
  }

  lemma {:induction false} AllCheck<Email>(email: Email, m: nat, n: nat, k: nat) returns (steps: seq<Step<Email>>)
    requires m < MAX_ATTEMPTS && n <= k
    ensures Overlap(Waiting(email, m, 0), steps, email, k) && Run(Waiting(email, m, 0), steps) == Waiting(email, m, n)
  {
    WaitingCount(email, m, n);
    if n == 0 {
      steps := [];
    } else {
      steps := AllCheck(email, m, n - 1, k);
      var s, last := Waiting(email, m, n - 1), Check(n - 1, email);
      FailsCount(email, m);
      FailsClock(email, m);
      LockIsExact(s.events, email, 0);
      assert Next(s, last) == Waiting(email, m, n);
      WaitingCount(email, m, n - 1);
      OneStep(s, last, email, k);
      Continues(Waiting(email, m, 0), steps, [last], email, k);
      steps := steps + [last];
    }
  }

  lemma {:induction false} AllRecord<Email>(email: Email, m: nat, n: nat, k: nat) returns (steps: seq<Step<Email>>)
    requires n <= k
    ensures Overlap(Waiting(email, m, n), steps, email, k) && Run(Waiting(email, m, n), steps) == Waiting(email, m + n, 0)
    decreases n
  {
    WaitingCount(email, m, n);
    if n == 0 {
      steps := [];
    } else {
      var rest := AllRecord(email, m + 1, n - 1, k);
      var s, first := Waiting(email, m, n), Record(n - 1, 0);
      assert Fails(email, m) + [Failed(email, 0, 0)] == Fails(email, m + 1);
      assert s.handlers - {n - 1} == AllChecked(email, n - 1);
      assert Next(s, first) == Waiting(email, m + 1, n - 1);
      WaitingCount(email, m + 1, n - 1);
      OneStep(s, first, email, k);
      Continues(s, [first], rest, email, k);
      steps := [first] + rest;
    }
  }

  /** n attempts one after the other, while none of them finds the address locked. */
  lemma {:induction false} OneByOne<Email>(email: Email, n: nat, k: nat) returns (steps: seq<Step<Email>>)
    requires n <= MAX_ATTEMPTS && k >= 1
    ensures Overlap(Waiting(email, 0, 0), steps, email, k) && Run(Waiting(email, 0, 0), steps) == Waiting(email, n, 0)
  {
    if n == 0 {
      steps := [];
      WaitingCount(email, 0, 0);
    } else {
      steps := OneByOne(email, n - 1, k);
      var check := AllCheck(email, n - 1, 1, k);
      var record := AllRecord(email, n - 1, 1, k);
      Continues(Waiting(email, n - 1, 0), check, record, email, k);
      Continues(Waiting(email, 0, 0), steps, check + record, email, k);
      steps := steps + (check + record);
    }
  }

  /** k attempts that overlap do reach the bound: four failures, then k checks, then k failures. */
  lemma OverlapReachesBound<Email>(email: Email, k: nat) returns (steps: seq<Step<Email>>)
    requires k >= 1
    ensures Overlap(Start(), steps, email, k)
    ensures |InWindow(SinceClear(Run(Start(), steps).events, email), 0, LOCKOUT_WINDOW)| == MAX_ATTEMPTS + k - 1
  {
    var m := MAX_ATTEMPTS - 1;
    steps := OneByOne(email, m, k);
    var check := AllCheck(email, m, k, k);
    var record := AllRecord(email, m, k, k);
    Continues(Waiting(email, m, 0), check, record, email, k);
    Continues(Waiting(email, 0, 0), steps, check + record, email, k);
    steps := steps + (check + record);
    FailsCount(email, m + k);
    assert Waiting(email, 0, 0) == Start();
  }
}
