/** The in-memory request limiter: admissions per key, pruned at every request and in the background. */
module RateLimiter {
  import opened SlidingWindow

  predicate Admits(recent: seq<int>, max: int) {
    |recent| < max
  }

  /** The slice of a key after a request at now. */
  function AfterRequest(slice: seq<int>, max: int, window: int, now: int): seq<int> {
    var recent := After(slice, now - window);
    if Admits(recent, max) then recent + [now] else recent
  }

  /** All slices after the background pass at now. */
  function AfterCleanup<Key>(clients: map<Key, seq<int>>, window: int, now: int): map<Key, seq<int>> {
    map k | k in clients && After(clients[k], now - window) != [] :: After(clients[k], now - window)
  }

  class RateLimiter<Key(==)> {
    const maxRequests: int
    const window: int
    const clients: Histories<Key>

    ghost predicate Valid()
      reads this, clients, clients.repr
    {
      clients.Valid()
    }

    constructor (maxRequests: int, window: int)
      ensures Valid() && fresh(clients) && fresh(clients.repr)
      ensures this.maxRequests == maxRequests && this.window == window && clients.seen == map[]
    {
      this.maxRequests, this.window := maxRequests, window;
      clients := new Histories<Key>();
    }

    /** The key's slice is filtered over itself and, if there is room, appended to; no other key's array is touched. */
    method Allow(key: Key, now: int) returns (ok: bool)
      requires Valid()
      modifies clients, clients.BufferOf(key)
      ensures Valid() && fresh(clients.repr - old(clients.repr))
      ensures ok == Admits(After(Recall(old(clients.seen), key), now - window), maxRequests)
      ensures clients.seen == old(clients.seen)[key := AfterRequest(Recall(old(clients.seen), key), maxRequests, window, now)]
    {
      ghost var was := clients.seen;
      ghost var recent := After(Recall(was, key), now - window);
      var n := clients.Prune(key, now - window);
      ok := n < maxRequests;
      if ok {
        assert Recall(clients.seen, key) == recent;
        clients.Push(key, now);
        Overwritten(was, key, recent, recent + [now]);
      }
    }

    /** Every key's slice is filtered over itself, whatever the order of the keys; an empty one goes. */
    method Cleanup(now: int)
      requires Valid()
      modifies clients, clients.repr
      ensures Valid() && clients.repr == old(clients.repr)
      ensures clients.seen == AfterCleanup(old(clients.seen), window, now)
    {
      ghost var before := clients.seen;
      ghost var visited := [];
      var cutoff := now - window;
      var todo := clients.slices.Keys;
      while todo != {}
        invariant clients.Valid() && clients.repr == old(clients.repr)
        invariant todo <= clients.slices.Keys && todo <= before.Keys
        invariant clients.seen == DroppedAll(before, visited, cutoff)
        invariant Visited(visited, before.Keys, todo)
        decreases todo
      {
        var key :| key in todo;
        Visit(key, cutoff, before, visited);
        VisitedOneMore(visited, before.Keys, todo, key);
        visited := visited + [key];
        todo := todo - {key};
      }
      DroppedAllIsCleanup(before, visited, window, now, cutoff);
    }

    method Visit(key: Key, cutoff: int, ghost before: map<Key, seq<int>>, ghost visited: seq<Key>)
      requires Valid() && key in clients.slices && clients.seen == DroppedAll(before, visited, cutoff)
      modifies clients, clients.repr
      ensures Valid() && clients.repr == old(clients.repr) && old(clients.slices).Keys - {key} <= clients.slices.Keys
      ensures clients.seen == DroppedAll(before, visited + [key], cutoff)
    {
      DroppedOneMore(before, visited, key, cutoff);
      clients.PruneOrDrop(key, cutoff);
    }
  }

  /** The keys visited so far, each once, and those still to visit make up all keys. */
  ghost predicate Visited<Key>(visited: seq<Key>, keys: set<Key>, todo: set<Key>) {
    && (forall k :: k in visited ==> k in keys && k !in todo)
    && (forall k :: k in keys && k !in todo ==> k in visited)
    && (forall i, j :: 0 <= i < j < |visited| ==> visited[i] != visited[j])
  }

  lemma VisitedOneMore<Key>(visited: seq<Key>, keys: set<Key>, todo: set<Key>, key: Key)
    requires Visited(visited, keys, todo) && key in todo && todo <= keys
    ensures Visited(visited + [key], keys, todo - {key})
  {
    assert key !in visited;
  }

  /** The map after the pass has visited some keys in their order. */
  ghost function DroppedAll<Key>(before: map<Key, seq<int>>, visited: seq<Key>, cutoff: int): map<Key, seq<int>> {
    if visited == [] then before
    else Dropped(DroppedAll(before, visited[..|visited| - 1], cutoff), visited[|visited| - 1], cutoff)
  }

  lemma DroppedOneMore<Key>(before: map<Key, seq<int>>, visited: seq<Key>, key: Key, cutoff: int)
    ensures DroppedAll(before, visited + [key], cutoff) == Dropped(DroppedAll(before, visited, cutoff), key, cutoff)
  {
    assert (visited + [key])[..|visited|] == visited;
  }

  /** Visiting a key matters to that key alone, so the order of the visits does not. */
  lemma {:induction false} DroppedOnce<Key>(before: map<Key, seq<int>>, visited: seq<Key>, cutoff: int, k: Key)
    requires forall i, j :: 0 <= i < j < |visited| ==> visited[i] != visited[j]
    ensures var after := DroppedAll(before, visited, cutoff);
      if k !in visited then (k in after <==> k in before) && Recall(after, k) == Recall(before, k)
      else (k in after <==> After(Recall(before, k), cutoff) != []) && (k in after ==> after[k] == After(Recall(before, k), cutoff))
  {
    if visited != [] {
      var n := |visited| - 1;
      DroppedOnce(before, visited[..n], cutoff, k);
      assert visited == visited[..n] + [visited[n]];
    }
  }

  lemma {:induction false} DroppedKeys<Key>(before: map<Key, seq<int>>, visited: seq<Key>, cutoff: int)
    requires forall k :: k in visited ==> k in before
    ensures DroppedAll(before, visited, cutoff).Keys <= before.Keys
  {
    if visited != [] {
      DroppedKeys(before, visited[..|visited| - 1], cutoff);
    }
  }

  /** Two maps with the same keys left, and the same values under them. */
  lemma LeftAlike<Key>(a: map<Key, seq<int>>, b: map<Key, seq<int>>, left: map<Key, seq<int>>)
    requires a.Keys <= left.Keys && b.Keys <= left.Keys
    requires forall k :: k in left ==> (k in a <==> left[k] != []) && (k in b <==> left[k] != [])
    requires forall k :: k in left ==> (k in a ==> a[k] == left[k]) && (k in b ==> b[k] == left[k])
    ensures a == b
  {
    assert a.Keys == b.Keys;
  }

  lemma DroppedAllIsCleanup<Key>(before: map<Key, seq<int>>, visited: seq<Key>, window: int, now: int, cutoff: int)
    requires Visited(visited, before.Keys, {}) && cutoff == now - window
    ensures DroppedAll(before, visited, cutoff) == AfterCleanup(before, window, now)
  {
    var after, left := DroppedAll(before, visited, cutoff), map k | k in before :: After(before[k], cutoff);
    DroppedKeys(before, visited, cutoff);
    forall k | k in left ensures (k in after <==> left[k] != []) && (k in after ==> after[k] == left[k]) {
      DroppedOnce(before, visited, cutoff, k);
    }
    LeftAlike(after, AfterCleanup(before, window, now), left);
  }

  /** What can happen to a limiter: a request of some key, or the background pass; each under the mutex, at an instant. */
  datatype Event<Key> = Request(key: Key, at: int) | Sweep(at: int)

  predicate InOrder<Key>(events: seq<Event<Key>>) {
    forall i, j :: 0 <= i < j < |events| ==> events[i].at <= events[j].at
  }

  /** The limiter's map after a run of events. */
  function Clients<Key(==)>(events: seq<Event<Key>>, max: int, window: int): map<Key, seq<int>> {
    if events == [] then map[]
    else ClientsNext(Clients(events[..|events| - 1], max, window), events[|events| - 1], max, window)
  }

  function ClientsNext<Key(==)>(before: map<Key, seq<int>>, e: Event<Key>, max: int, window: int): map<Key, seq<int>> {
    match e
    case Request(k, t) => before[k := AfterRequest(Recall(before, k), max, window, t)]
    case Sweep(t) => AfterCleanup(before, window, t)
  }

  predicate Asks<Key(==)>(e: Event<Key>, key: Key) {
    e.Request? && e.key == key
  }

  /** The requests of a key that the run let through. */
  function Passed<Key(==)>(events: seq<Event<Key>>, key: Key, max: int, window: int): seq<int> {
    if events == [] then []
    else
      var earlier, e := events[..|events| - 1], events[|events| - 1];
      PassedNext(Passed(earlier, key, max, window), Recall(Clients(earlier, max, window), key), e, key, max, window)
  }

  /** The limiter's answer comes from the key's slice. */
  function PassedNext<Key(==)>(before: seq<int>, slice: seq<int>, e: Event<Key>, key: Key, max: int, window: int): seq<int> {
    if Asks(e, key) && Admits(After(slice, e.at - window), max) then before + [e.at] else before
  }

  /** The requests of a key, whatever became of them. */
  function Arrivals<Key(==)>(events: seq<Event<Key>>, key: Key): seq<int> {
    if events == [] then []
    else ArrivalsNext(Arrivals(events[..|events| - 1], key), events[|events| - 1], key)
  }

  function ArrivalsNext<Key(==)>(before: seq<int>, e: Event<Key>, key: Key): seq<int> {
    if Asks(e, key) then before + [e.at] else before
  }

  function LastTime<Key>(events: seq<Event<Key>>): int
    requires events != []
  {
    events[|events| - 1].at
  }

  /** What the map still holds of a key answers like everything the key was ever granted. */
  lemma {:induction false} MemoryIsFaithful<Key>(events: seq<Event<Key>>, key: Key, max: int, window: int)
    requires InOrder(events) && events != []
    ensures Faithful(Recall(Clients(events, max, window), key), Passed(events, key, max, window), LastTime(events) - window)
    decreases |events|
  {
    var earlier := events[..|events| - 1];
    if earlier != [] {
      MemoryIsFaithful(earlier, key, max, window);
    }
    var e := events[|events| - 1];
    StepStaysFaithful(Clients(earlier, max, window), Passed(earlier, key, max, window), e, key, max, window,
                      if earlier == [] then e.at - window else LastTime(earlier) - window);
  }

  lemma StepStaysFaithful<Key>(clients: map<Key, seq<int>>, passed: seq<int>, e: Event<Key>, key: Key, max: int, window: int, oldest: int)
    requires oldest <= e.at - window && Faithful(Recall(clients, key), passed, oldest)
    ensures Faithful(Recall(ClientsNext(clients, e, max, window), key),
                     PassedNext(passed, Recall(clients, key), e, key, max, window), e.at - window)
  {
    match e
    case Request(k, t) =>
      if k == key {
        RequestStaysFaithful(Recall(clients, key), passed, max, window, t, oldest);
        OwnRequest(clients, passed, key, max, window, t);
      } else {
        OtherRequest(clients, passed, k, key, max, window, t);
      }
    case Sweep(t) =>
      SweptSlice(clients, window, t, key);
      FaithfulPruned(Recall(clients, key), passed, oldest, t - window);
  }

  lemma OwnRequest<Key>(clients: map<Key, seq<int>>, passed: seq<int>, key: Key, max: int, window: int, t: int)
    ensures var e, slice := Request(key, t), Recall(clients, key);
      && Recall(ClientsNext(clients, e, max, window), key) == AfterRequest(slice, max, window, t)
      && PassedNext(passed, slice, e, key, max, window) == if Admits(After(slice, t - window), max) then passed + [t] else passed
  {
  }

  lemma OtherRequest<Key>(clients: map<Key, seq<int>>, passed: seq<int>, k: Key, key: Key, max: int, window: int, t: int)
    requires k != key
    ensures var e, slice := Request(k, t), Recall(clients, key);
      Recall(ClientsNext(clients, e, max, window), key) == slice && PassedNext(passed, slice, e, key, max, window) == passed
  {
  }

  lemma RequestStaysFaithful(slice: seq<int>, passed: seq<int>, max: int, window: int, t: int, oldest: int)
    requires oldest <= t - window && Faithful(slice, passed, oldest)
    ensures Faithful(AfterRequest(slice, max, window, t), if Admits(After(slice, t - window), max) then passed + [t] else passed, t - window)
  {
    FaithfulPruned(slice, passed, oldest, t - window);
    FaithfulAppended(After(slice, t - window), passed, t - window, t);
  }

  lemma SweptSlice<Key>(clients: map<Key, seq<int>>, window: int, t: int, key: Key)
    ensures Recall(AfterCleanup(clients, window, t), key) == After(Recall(clients, key), t - window)
  {
  }

  /** One event, seen from the full history. */
  lemma PassedOneMore<Key>(events: seq<Event<Key>>, key: Key, max: int, window: int)
    requires events != [] && InOrder(events)
    ensures var e, before := events[|events| - 1], Passed(events[..|events| - 1], key, max, window);
      Passed(events, key, max, window) == if Asks(e, key) then Admit(before, e.at, max, window) else before
  {
    var earlier, e := events[..|events| - 1], events[|events| - 1];
    var slice, passed := Recall(Clients(earlier, max, window), key), Passed(earlier, key, max, window);
    if earlier != [] {
      MemoryIsFaithful(earlier, key, max, window);
      GrantedAlike(slice, passed, e, key, max, window, LastTime(earlier) - window);
    }
  }

  lemma GrantedAlike<Key>(slice: seq<int>, passed: seq<int>, e: Event<Key>, key: Key, max: int, window: int, oldest: int)
    requires oldest <= e.at - window && Faithful(slice, passed, oldest)
    ensures PassedNext(passed, slice, e, key, max, window) == if Asks(e, key) then Admit(passed, e.at, max, window) else passed
  {
    assert After(slice, e.at - window) == After(passed, e.at - window);
  }

  /**
   In every run, what a key is granted depends on that key's own arrivals alone: it is what a
   limiter that never forgets would grant. Pruning, background passes at any moment and the
   traffic of other keys are unobservable.
   */
  lemma {:induction false} LimiterNeverForgets<Key>(events: seq<Event<Key>>, key: Key, max: int, window: int)
    requires InOrder(events)
    ensures Passed(events, key, max, window) == Admitted(Arrivals(events, key), max, window)
    decreases |events|
  {
    if events != [] {
        LimiterNeverForgets(events[..|events| - 1], key, max, window);
      NeverForgetsOneMore(events, key, max, window);
    }
  }

  lemma NeverForgetsOneMore<Key>(events: seq<Event<Key>>, key: Key, max: int, window: int)
    requires events != [] && InOrder(events)
    requires var earlier := events[..|events| - 1]; Passed(earlier, key, max, window) == Admitted(Arrivals(earlier, key), max, window)
    ensures Passed(events, key, max, window) == Admitted(Arrivals(events, key), max, window)
  {
    var e, earlier := events[|events| - 1], events[..|events| - 1];
    PassedOneMore(events, key, max, window);
    if Asks(e, key) {
      AdmittedOneMore(Arrivals(earlier, key), e.at, max, window);
    }
  }

  /** In every run, any window (t - window, t] contains at most max admissions of a key. */
  lemma RunsAreBounded<Key>(events: seq<Event<Key>>, key: Key, max: int, window: int)
    requires InOrder(events)
    ensures Bounded(Passed(events, key, max, window), window, if max < 0 then 0 else max)
  {
    LimiterNeverForgets(events, key, max, window);
    ArrivalsOrdered(events, key);
    AdmittedBounded(Arrivals(events, key), max, window);
  }

  lemma {:induction false} ArrivalsOrdered<Key>(events: seq<Event<Key>>, key: Key)
    requires InOrder(events)
    ensures Ordered(Arrivals(events, key))
    ensures events != [] ==> UpTo(Arrivals(events, key), LastTime(events))
    decreases |events|
  {
    if events != [] {
        ArrivalsOrdered(events[..|events| - 1], key);
    }
  }
}
