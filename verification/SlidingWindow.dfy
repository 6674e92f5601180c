/**
 Sliding windows over histories of instants, and the Go slice idiom the limiters
 prune them with: filtering a slice into its own backing array, then appending.
 */
module SlidingWindow {

  /** The instants strictly after a cutoff, in order: what t.After(cutoff) keeps. */
  function After(h: seq<int>, cutoff: int): seq<int> {
    if h == [] then []
    else (if h[0] > cutoff then [h[0]] else []) + After(h[1..], cutoff)
  }

  /** The instants in the window (t - width, t]. */
  function InWindow(h: seq<int>, t: int, width: int): seq<int> {
    if h == [] then []
    else (if t - width < h[0] <= t then [h[0]] else []) + InWindow(h[1..], t, width)
  }

  predicate UpTo(h: seq<int>, now: int) {
    forall i :: 0 <= i < |h| ==> h[i] <= now
  }

  /** No window of the given width holds more than max instants. */
  ghost predicate Bounded(h: seq<int>, width: int, max: nat) {
    forall t :: |InWindow(h, t, width)| <= max
  }

  /** A pruned history gives the same answer as the full one for every cutoff that can still be asked for. */
  ghost predicate Faithful(pruned: seq<int>, full: seq<int>, oldest: int) {
    forall cutoff :: cutoff >= oldest ==> After(pruned, cutoff) == After(full, cutoff)
  }

  lemma {:induction false} AfterAppend(h: seq<int>, x: int, cutoff: int)
    ensures After(h + [x], cutoff) == After(h, cutoff) + (if x > cutoff then [x] else [])
  {
    if h != [] {
      assert (h + [x])[1..] == h[1..] + [x];
      AfterAppend(h[1..], x, cutoff);
    }
  }

  lemma {:induction false} InWindowAppend(h: seq<int>, x: int, t: int, width: int)
    ensures InWindow(h + [x], t, width) == InWindow(h, t, width) + (if t - width < x <= t then [x] else [])
  {
    if h != [] {
      assert (h + [x])[1..] == h[1..] + [x];
      InWindowAppend(h[1..], x, t, width);
    }
  }

  /** Pruning twice is pruning once, at the later cutoff. */
  lemma {:induction false} AfterAfter(h: seq<int>, c: int, d: int)
    requires c <= d
    ensures After(After(h, c), d) == After(h, d)
  {
    if h != [] {
      AfterAfter(h[1..], c, d);
      if h[0] > c {
        assert After(h, c)[1..] == After(h[1..], c);
      } else {
        assert After(h, c) == After(h[1..], c);
      }
    }
  }

  lemma {:induction false} AfterShrinks(h: seq<int>, c: int, d: int)
    requires c <= d
    ensures |After(h, d)| <= |After(h, c)| <= |h|
  {
    if h != [] {
      AfterShrinks(h[1..], c, d);
    }
  }

  lemma {:induction false} AfterNothing(h: seq<int>, cutoff: int)
    requires UpTo(h, cutoff)
    ensures After(h, cutoff) == []
  {
    if h != [] {
      AfterNothing(h[1..], cutoff);
    }
  }

  lemma {:induction false} InWindowIsAfter(h: seq<int>, t: int, width: int)
    requires UpTo(h, t)
    ensures InWindow(h, t, width) == After(h, t - width)
  {
    if h != [] {
      InWindowIsAfter(h[1..], t, width);
    }
  }

  /** Admitting only while fewer than max instants are recent keeps every window within max. */
  lemma AdmissionKeepsBound(h: seq<int>, width: int, max: nat, now: int)
    requires Bounded(h, width, max) && UpTo(h, now) && |After(h, now - width)| < max
    ensures Bounded(h + [now], width, max) && UpTo(h + [now], now)
  {
    forall t ensures |InWindow(h + [now], t, width)| <= max {
      InWindowAppend(h, now, t, width);
      assert |InWindow(h, t, width)| <= max;
      if t >= now {
        InWindowIsAfter(h, t, width);
        AfterShrinks(h, now - width, t - width);
      }
    }
  }

  /** The admissions on an arrival trace when nothing is ever forgotten: each arrival looks at all earlier admissions. */
  function Admitted(arrivals: seq<int>, max: int, window: int): seq<int> {
    if arrivals == [] then []
    else Admit(Admitted(arrivals[..|arrivals| - 1], max, window), arrivals[|arrivals| - 1], max, window)
  }

  function Admit(before: seq<int>, t: int, max: int, window: int): seq<int> {
    if |After(before, t - window)| < max then before + [t] else before
  }

  lemma AdmittedOneMore(arrivals: seq<int>, t: int, max: int, window: int)
    ensures Admitted(arrivals + [t], max, window) == Admit(Admitted(arrivals, max, window), t, max, window)
  {
    var all := arrivals + [t];
    assert all[..|all| - 1] == arrivals && all[|all| - 1] == t;
  }

  predicate Ordered(times: seq<int>) {
    forall i, j :: 0 <= i < j < |times| ==> times[i] <= times[j]
  }

  /** However the arrivals fall, no window contains more than max admissions. */
  lemma {:induction false} AdmittedBounded(arrivals: seq<int>, max: int, window: int)
    requires Ordered(arrivals)
    ensures Bounded(Admitted(arrivals, max, window), window, if max < 0 then 0 else max)
    ensures arrivals != [] ==> UpTo(Admitted(arrivals, max, window), arrivals[|arrivals| - 1])
  {
    if arrivals != [] {
      var n := |arrivals| - 1;
      var before := Admitted(arrivals[..n], max, window);
      AdmittedBounded(arrivals[..n], max, window);
      assert UpTo(before, arrivals[n]);
      if |After(before, arrivals[n] - window)| < max {
        AdmissionKeepsBound(before, window, max, arrivals[n]);
      }
    }
  }

  lemma FaithfulPruned(pruned: seq<int>, full: seq<int>, oldest: int, cutoff: int)
    requires Faithful(pruned, full, oldest) && oldest <= cutoff
    ensures Faithful(After(pruned, cutoff), full, cutoff)
  {
    forall c | c >= cutoff ensures After(After(pruned, cutoff), c) == After(full, c) {
      AfterAfter(pruned, cutoff, c);
    }
  }

  lemma FaithfulAppended(pruned: seq<int>, full: seq<int>, oldest: int, x: int)
    requires Faithful(pruned, full, oldest)
    ensures Faithful(pruned + [x], full + [x], oldest)
  {
    forall c | c >= oldest ensures After(pruned + [x], c) == After(full + [x], c) {
      AfterAppend(pruned, x, c);
      AfterAppend(full, x, c);
    }
  }

  /** A history with nothing recent may be forgotten. */
  lemma FaithfulForgotten(pruned: seq<int>, full: seq<int>, oldest: int, cutoff: int)
    requires Faithful(pruned, full, oldest) && oldest <= cutoff && After(pruned, cutoff) == []
    ensures Faithful([], full, cutoff)
  {
    forall c | c >= cutoff ensures After([], c) == After(full, c) {
      AfterAfter(pruned, cutoff, c);
    }
  }

  /** A Go slice: a backing array and how much of it is in use; the array's length is the capacity. */
  datatype Slice = Slice(buf: array<int>, len: nat)

  ghost predicate SliceOk(s: Slice) {
    s.len <= s.buf.Length
  }

  ghost function View(s: Slice): seq<int>
    requires SliceOk(s)
    reads s.buf
  {
    s.buf[..s.len]
  }

  /** valid := s[:0], then appending every element after the cutoff: the slice is filtered over itself. */
  method Compact(s: Slice, cutoff: int) returns (valid: Slice)
    requires SliceOk(s)
    modifies s.buf
    ensures valid.buf == s.buf && SliceOk(valid)
    ensures View(valid) == After(old(View(s)), cutoff)
  {
    var n := 0;
    ghost var was := View(s);
    for i := 0 to s.len
      invariant n <= i
      invariant s.buf[..n] == After(was[..i], cutoff)
      invariant forall j :: i <= j < s.len ==> s.buf[j] == was[j]
    {
      AfterAppend(was[..i], was[i], cutoff);
      assert was[..i + 1] == was[..i] + [was[i]];
      if s.buf[i] > cutoff {
        s.buf[n] := s.buf[i];
        n := n + 1;
      }
    }
    assert was[..s.len] == was;
    valid := Slice(s.buf, n);
  }

  /** The number of elements after a cutoff. */
  method CountAfter(s: Slice, cutoff: int) returns (n: nat)
    requires SliceOk(s)
    ensures n == |After(View(s), cutoff)|
  {
    n := 0;
    ghost var all := View(s);
    for i := 0 to s.len
      invariant n == |After(all[..i], cutoff)|
    {
      AfterAppend(all[..i], all[i], cutoff);
      assert all[..i + 1] == all[..i] + [all[i]];
      if s.buf[i] > cutoff {
        n := n + 1;
      }
    }
    assert all[..s.len] == all;
  }

  /** append(s, x): in place while there is capacity, otherwise into a larger array. */
  method Append(s: Slice, x: int) returns (longer: Slice)
    requires SliceOk(s)
    modifies s.buf
    ensures SliceOk(longer) && (longer.buf == s.buf || fresh(longer.buf))
    ensures View(longer) == old(View(s)) + [x]
  {
    ghost var was := View(s);
    if s.len < s.buf.Length {
      s.buf[s.len] := x;
      longer := Slice(s.buf, s.len + 1);
    } else {
      var larger := new int[2 * s.len + 1];
      for i := 0 to s.len
        invariant s.buf[..s.len] == was && larger[..i] == was[..i]
      {
        larger[i] := s.buf[i];
      }
      larger[s.len] := x;
      longer := Slice(larger, s.len + 1);
      assert larger[..s.len] == was;
    }
  }

  /** What a key's slice holds; no entry is an empty slice. */
  function Recall<Key>(seen: map<Key, seq<int>>, key: Key): seq<int> {
    if key in seen then seen[key] else []
  }

  /** A map after one key is pruned, and dropped when nothing is left. */
  ghost function Dropped<Key>(seen: map<Key, seq<int>>, key: Key, cutoff: int): map<Key, seq<int>> {
    var recent := After(Recall(seen, key), cutoff);
    if recent == [] then seen - {key} else seen[key := recent]
  }

  lemma Overwritten<Key, V>(m: map<Key, V>, key: Key, a: V, b: V)
    ensures m[key := a][key := b] == m[key := b]
  {
  }

  lemma PutAndRemoved<Key, V>(m: map<Key, V>, key: Key, a: V)
    ensures m[key := a] - {key} == m - {key}
  {
  }

  /** A map of slices, each over a backing array of its own; seen is what they hold, repr the arrays. */
  class Histories<Key(==)> {
    var slices: map<Key, Slice>
    ghost var seen: map<Key, seq<int>>
    ghost var repr: set<array<int>>

    ghost function BufferOf(k: Key): set<array<int>>
      reads this
    {
      if k in slices then {slices[k].buf} else {}
    }

    ghost predicate Holds(k: Key)
      requires k in slices
      reads this, BufferOf(k)
    {
      SliceOk(slices[k]) && k in seen && View(slices[k]) == seen[k]
    }

    ghost predicate Apart()
      reads this
    {
      forall j, k :: j in slices && k in slices && slices[j].buf == slices[k].buf ==> j == k
    }

    ghost predicate Valid()
      reads this, repr
    {
      && seen.Keys == slices.Keys
      && (forall k :: k in slices ==> slices[k].buf in repr && Holds(k))
      && Apart()
    }

    /** The other keys' slices are as they should be, whatever is in this array. */
    ghost predicate OthersHold(key: Key, buf: array<int>)
      reads this, repr - {buf}
    {
      forall k :: k in slices && k != key ==> slices[k].buf in repr && slices[k].buf != buf && Holds(k)
    }

    constructor ()
      ensures Valid() && seen == map[] && repr == {}
    {
      slices, seen, repr := map[], map[], {};
    }

    /** The key's slice, or an empty one without capacity. */
    method Get(key: Key) returns (s: Slice)
      requires Valid()
      ensures SliceOk(s) && View(s) == Recall(seen, key) && OthersHold(key, s.buf)
      ensures key in slices ==> s == slices[key]
      ensures key !in slices ==> fresh(s.buf)
    {
      if key in slices {
        assert Holds(key);
        s := slices[key];
      } else {
        var none := new int[0];
        s := Slice(none, 0);
      }
    }

    /** slices[key] = s, for a slice over an array that no other key uses. */
    method Put(key: Key, s: Slice)
      requires SliceOk(s) && Apart() && seen.Keys == slices.Keys && OthersHold(key, s.buf)
      modifies this
      ensures Valid() && slices == old(slices)[key := s] && seen == old(seen)[key := View(s)] && repr == old(repr) + {s.buf}
    {
      slices := slices[key := s];
      seen := seen[key := View(s)];
      repr := repr + {s.buf};
      forall k | k in slices && k != key ensures Holds(k) {
        assert k in old(slices) && old(Holds(k));
      }
    }

    /** The key's slice filtered over itself; a key without one gets an empty one. */
    method Prune(key: Key, cutoff: int) returns (n: nat)
      requires Valid()
      modifies this, BufferOf(key)
      ensures Valid() && seen == old(seen)[key := After(Recall(old(seen), key), cutoff)] && n == |seen[key]|
      ensures slices.Keys == old(slices).Keys + {key} && fresh(repr - old(repr))
      ensures if key in old(slices) then repr == old(repr) && BufferOf(key) == old(BufferOf(key)) else fresh(BufferOf(key))
    {
      var s := Get(key);
      var valid := Compact(s, cutoff);
      Put(key, valid);
      n := valid.len;
    }

    /** slices[key] = append(slices[key], x) */
    method Push(key: Key, x: int)
      requires Valid()
      modifies this, BufferOf(key)
      ensures Valid() && seen == old(seen)[key := Recall(old(seen), key) + [x]]
      ensures fresh(repr - old(repr)) && fresh(BufferOf(key) - old(BufferOf(key)))
    {
      var s := Get(key);
      var longer := Append(s, x);
      Put(key, longer);
    }

    method Drop(key: Key)
      requires Valid()
      modifies this
      ensures Valid() && seen == old(seen) - {key} && slices == old(slices) - {key} && repr == old(repr)
    {
      slices := slices - {key};
      seen := seen - {key};
      forall k | k in slices ensures Holds(k) {
        assert old(Holds(k));
      }
    }

    /** The key's slice filtered over itself, or dropped when nothing is left. */
    method PruneOrDrop(key: Key, cutoff: int)
      requires Valid() && key in slices
      modifies this, BufferOf(key)
      ensures Valid() && repr == old(repr) && old(slices).Keys - {key} <= slices.Keys
      ensures seen == Dropped(old(seen), key, cutoff)
    {
      var n := Prune(key, cutoff);
      if n == 0 {
        PutAndRemoved(old(seen), key, seen[key]);
        Drop(key);
      }
    }

    /** How many of a key's entries are later than a cutoff. */
    method Count(key: Key, cutoff: int) returns (n: nat)
      requires Valid()
      ensures n == |After(Recall(seen, key), cutoff)|
    {
      var s := Get(key);
      n := CountAfter(s, cutoff);
    }
  }
}
