/** The gateway's choice of a route: the longest path pattern that matches wins. */
module RouteMatch {
  import opened Base

  datatype Route = Route(id: nat, agent: nat, host: string, pattern: string, enabled: bool)

  predicate HasSuffix(s: string, suffix: string) {
    |suffix| <= |s| && s[|s| - |suffix|..] == suffix
  }

  predicate MatchPath(pattern: string, path: string) {
    if pattern == "/*" || pattern == "*" then true
    else if HasSuffix(pattern, "/*") then
      var prefix := pattern[..|pattern| - 2];
      path == prefix || prefix + "/" <= path
    else pattern == path
  }

  predicate Matches(r: Route, agent: nat, host: string, path: string) {
    r.agent == agent && r.enabled && r.host == host && MatchPath(r.pattern, path)
  }

  /** The path is below the prefix: the prefix itself, or the prefix, a slash and some rest. */
  ghost predicate Below(prefix: string, path: string) {
    path == prefix || exists rest :: path == prefix + "/" + rest
  }

  /** What patterns mean: a catch-all, the path itself, or everything below a prefix. */
  ghost predicate Covers(pattern: string, path: string) {
    pattern == "*" || pattern == "/*" || pattern == path || exists prefix :: pattern == prefix + "/*" && Below(prefix, path)
  }

  lemma BelowIff(prefix: string, path: string)
    ensures Below(prefix, path) <==> path == prefix || prefix + "/" <= path
  {
    if prefix + "/" <= path {
      assert path == prefix + "/" + path[|prefix| + 1..];
    }
  }

  lemma WildcardPrefix(pattern: string, prefix: string)
    requires pattern == prefix + "/*"
    ensures HasSuffix(pattern, "/*") && pattern[..|pattern| - 2] == prefix
  {
    assert pattern[|pattern| - 2..] == "/*";
  }

  /** A pattern matches exactly the paths it covers. */
  lemma MatchesWhatItCovers(pattern: string, path: string)
    ensures MatchPath(pattern, path) <==> Covers(pattern, path)
  {
    if HasSuffix(pattern, "/*") {
      var prefix := pattern[..|pattern| - 2];
      assert pattern == prefix + "/*";
      BelowIff(prefix, path);
      if q :| pattern == q + "/*" && Below(q, path) {
        WildcardPrefix(pattern, q);
      }
      if pattern == path {
        assert prefix + "/" <= path;
      }
    } else if q :| pattern == q + "/*" && Below(q, path) {
      WildcardPrefix(pattern, q);
    }
  }

  /** The agent's enabled route for the host, whose pattern covers the path. */
  ghost predicate Answers(r: Route, agent: nat, host: string, path: string) {
    r.agent == agent && r.enabled && r.host == host && Covers(r.pattern, path)
  }

  /** What the query returns: the agent's enabled routes, longest pattern first, ties in any order. */
  ghost predicate IsQueryResult(rows: seq<Route>, table: set<Route>, agent: nat) {
    && (forall r :: r in rows <==> r in table && r.agent == agent && r.enabled)
    && (forall i, j :: 0 <= i < j < |rows| ==> |rows[i].pattern| >= |rows[j].pattern|)
  }

  /** The scan: the first row that matches. */
  function FirstMatch(rows: seq<Route>, host: string, path: string): Option<Route> {
    if rows == [] then None
    else if rows[0].host == host && MatchPath(rows[0].pattern, path) then Some(rows[0])
    else FirstMatch(rows[1..], host, path)
  }

  lemma {:induction false} FirstMatchFrom(rows: seq<Route>, i: nat, host: string, path: string)
    requires i <= |rows| && forall k :: 0 <= k < i ==> !(rows[k].host == host && MatchPath(rows[k].pattern, path))
    ensures FirstMatch(rows, host, path) == FirstMatch(rows[i..], host, path)
  {
    if i > 0 {
      FirstMatchFrom(rows, i - 1, host, path);
      assert rows[i - 1..][1..] == rows[i..];
    } else {
      assert rows[0..] == rows;
    }
  }

  /** No route is found exactly when none matches; otherwise one with the longest pattern of all that match. */
  method FindMatchingRoute(rows: seq<Route>, ghost table: set<Route>, agent: nat, host: string, path: string) returns (found: Option<Route>)
    requires IsQueryResult(rows, table, agent)
    ensures found == FirstMatch(rows, host, path)
    ensures found.None? <==> forall r :: r in table ==> !Answers(r, agent, host, path)
    ensures found.Some? ==> found.value in table && Answers(found.value, agent, host, path)
    ensures found.Some? ==> forall r :: r in table && Answers(r, agent, host, path) ==> |r.pattern| <= |found.value.pattern|
    ensures found.Some? && !IsWildcard(found.value.pattern) ==> found.value.pattern == path
  {
    forall r | r in table ensures Matches(r, agent, host, path) <==> Answers(r, agent, host, path) {
      MatchesWhatItCovers(r.pattern, path);
    }
    for i := 0 to |rows|
      invariant forall k :: 0 <= k < i ==> !Matches(rows[k], agent, host, path)
    {
      assert rows[i] in table;
      if rows[i].host == host && MatchPath(rows[i].pattern, path) {
        forall r | r in table && Matches(r, agent, host, path) ensures |r.pattern| <= |rows[i].pattern| {
          assert r in rows;
        }
        FirstMatchFrom(rows, i, host, path);
        return Some(rows[i]);
      }
    }
    forall r | r in table ensures !Matches(r, agent, host, path) {
      assert Matches(r, agent, host, path) ==> r in rows;
    }
    FirstMatchFrom(rows, |rows|, host, path);
    found := None;
  }

  predicate IsWildcard(pattern: string) {
    pattern == "*" || HasSuffix(pattern, "/*")
  }

  /** A longer prefix of a path, cut at a slash, extends a shorter one. */
  lemma PrefixNests(long: string, short: string, path: string, other: string)
    requires |short| <= |long|
    requires path == long || long + "/" <= path
    requires path == short || short + "/" <= path
    requires other == long || long + "/" <= other
    ensures other == short || short + "/" <= other
  {
    assert long == path[..|long|] && short == path[..|short|];
    if |short| == |long| {
      assert short == long;
    } else {
      assert short + "/" == path[..|short| + 1];
      assert long[..|short| + 1] == short + "/";
      assert other[..|long|] == long;
      assert other[..|short| + 1] == long[..|short| + 1];
    }
  }

  /** Of two wildcard patterns that match one path, the longer is the narrower: everything it matches, the other matches. */
  lemma LongestWildcardIsNarrowest(chosen: string, other: string, path: string, p: string)
    requires IsWildcard(chosen) && IsWildcard(other) && |other| <= |chosen|
    requires MatchPath(chosen, path) && MatchPath(other, path)
    requires MatchPath(chosen, p)
    ensures MatchPath(other, p)
  {
    if other != "*" && other != "/*" {
      assert |other| > 2;
      PrefixNests(chosen[..|chosen| - 2], other[..|other| - 2], path, p);
    }
  }

  /** So a chosen wildcard route is the most specific of all wildcard routes that match on its host. */
  lemma ChosenIsMostSpecific(table: set<Route>, agent: nat, host: string, path: string, chosen: Route, other: Route, p: string)
    requires chosen in table && Matches(chosen, agent, host, path) && IsWildcard(chosen.pattern)
    requires forall r :: r in table && Matches(r, agent, host, path) ==> |r.pattern| <= |chosen.pattern|
    requires other in table && Matches(other, agent, host, path) && IsWildcard(other.pattern)
    ensures Matches(chosen, agent, host, p) ==> Matches(other, agent, host, p)
  {
    if Matches(chosen, agent, host, p) {
      LongestWildcardIsNarrowest(chosen.pattern, other.pattern, path, p);
    }
  }

  // ---- Exact routes against wildcards ------------------------------------------------

  /** An enabled route for exactly this path. */
  predicate IsExact(r: Route, agent: nat, host: string, path: string) {
    r.agent == agent && r.enabled && r.host == host && r.pattern == path && !IsWildcard(path)
  }

  predicate IsWildcardMatch(r: Route, agent: nat, host: string, path: string) {
    Matches(r, agent, host, path) && IsWildcard(r.pattern)
  }

  /** UNIQUE (agent_id, host_pattern, path_pattern) */
  ghost predicate Unique(table: set<Route>) {
    forall r, q :: r in table && q in table && r.agent == q.agent && r.host == q.host && r.pattern == q.pattern ==> r == q
  }

  lemma {:induction false} FirstMatchIsLongest(rows: seq<Route>, table: set<Route>, agent: nat, host: string, path: string, r: Route)
    requires IsQueryResult(rows, table, agent) && r in table && Matches(r, agent, host, path)
    ensures var f := FirstMatch(rows, host, path);
      f.Some? && f.value in table && Matches(f.value, agent, host, path) && |r.pattern| <= |f.value.pattern|
  {
    var k := FirstIndex(rows, host, path, r);
    assert rows[k] in rows;
  }

  /** A matching row is there, so the scan stops at or before it. */
  lemma {:induction false} FirstIndex(rows: seq<Route>, host: string, path: string, r: Route) returns (k: nat)
    requires r in rows && r.host == host && MatchPath(r.pattern, path)
    requires forall i, j :: 0 <= i < j < |rows| ==> |rows[i].pattern| >= |rows[j].pattern|
    ensures k < |rows| && FirstMatch(rows, host, path) == Some(rows[k])
    ensures rows[k].host == host && MatchPath(rows[k].pattern, path) && |r.pattern| <= |rows[k].pattern|
  {
    if rows[0].host == host && MatchPath(rows[0].pattern, path) {
      k := 0;
    } else {
      k := FirstIndex(rows[1..], host, path, r);
      k := k + 1;
    }
  }

  lemma Longest(s: set<Route>, x: Route) returns (r: Route)
    requires x in s
    ensures r in s && forall q :: q in s ==> |q.pattern| <= |r.pattern|
    decreases |s|
  {
    if y :| y in s && y != x {
      r := Longest(s - {x}, y);
      if |x.pattern| > |r.pattern| {
        r := x;
      }
    } else {
      r := x;
    }
  }

  /** Any set of routes can be listed longest pattern first. */
  lemma {:induction false} Listing(s: set<Route>) returns (rows: seq<Route>)
    ensures (forall r :: r in rows <==> r in s) && forall i, j :: 0 <= i < j < |rows| ==> |rows[i].pattern| >= |rows[j].pattern|
    decreases |s|
  {
    if x :| x in s {
      var r := Longest(s, x);
      var rest := Listing(s - {r});
      rows := [r] + rest;
      forall i, j | 0 <= i < j < |rows| ensures |rows[i].pattern| >= |rows[j].pattern| {
        assert rows[j] == rest[j - 1] && rest[j - 1] in rest;
        assert i > 0 ==> rows[i] == rest[i - 1];
      }
    } else {
      rows := [];
    }
  }

  /** The query may return any of the agent's enabled routes before all others that are no longer. */
  lemma ListingWithFirst(table: set<Route>, agent: nat, w: Route) returns (rows: seq<Route>, n: nat)
    requires w in table && w.agent == agent && w.enabled
    ensures IsQueryResult(rows, table, agent) && n < |rows| && rows[n] == w
    ensures forall i :: 0 <= i < n ==> |rows[i].pattern| > |w.pattern|
  {
    var longer := set r | r in table && r.agent == agent && r.enabled && |r.pattern| > |w.pattern|;
    var others := set r | r in table && r.agent == agent && r.enabled && |r.pattern| <= |w.pattern| && r != w;
    var before := Listing(longer);
    var after := Listing(others);
    rows, n := before + [w] + after, |before|;
    forall r ensures r in rows <==> r in table && r.agent == agent && r.enabled {
      assert r in rows <==> r in before || r == w || r in after;
    }
    forall i | 0 <= i < n ensures rows[i] in longer {
      assert rows[i] == before[i] && before[i] in before;
    }
    forall i | n < i < |rows| ensures rows[i] in others {
      assert rows[i] == after[i - n - 1] && after[i - n - 1] in after;
    }
    ListsJoin(before, w, after);
  }

  lemma ListsJoin(before: seq<Route>, w: Route, after: seq<Route>)
    requires forall i, j :: 0 <= i < j < |before| ==> |before[i].pattern| >= |before[j].pattern|
    requires forall i, j :: 0 <= i < j < |after| ==> |after[i].pattern| >= |after[j].pattern|
    requires forall i :: 0 <= i < |before| ==> |before[i].pattern| > |w.pattern|
    requires forall i :: 0 <= i < |after| ==> |after[i].pattern| <= |w.pattern|
    ensures var rows := before + [w] + after; forall i, j :: 0 <= i < j < |rows| ==> |rows[i].pattern| >= |rows[j].pattern|
  {
  }

  /** Some order of the rows makes a matching route the chosen one, if no longer one matches. */
  lemma CanBeChosen(table: set<Route>, agent: nat, host: string, path: string, w: Route) returns (rows: seq<Route>)
    requires w in table && Matches(w, agent, host, path)
    requires forall r :: r in table && Matches(r, agent, host, path) ==> |r.pattern| <= |w.pattern|
    ensures IsQueryResult(rows, table, agent) && FirstMatch(rows, host, path) == Some(w)
  {
    var n;
    rows, n := ListingWithFirst(table, agent, w);
    forall i | 0 <= i < n ensures !(rows[i].host == host && MatchPath(rows[i].pattern, path)) {
      assert rows[i] in rows;
    }
    FirstMatchFrom(rows, n, host, path);
    assert rows[n..][0] == w;
  }

  /**
   Whatever order the query gives to patterns of one length, the exact route is chosen if
   and only if every wildcard that matches is shorter than the path.
   */
  lemma ExactAlwaysChosenIff(table: set<Route>, agent: nat, host: string, path: string, e: Route)
    requires Unique(table) && e in table && IsExact(e, agent, host, path)
    ensures (forall rows :: IsQueryResult(rows, table, agent) ==> FirstMatch(rows, host, path) == Some(e))
      <==> (forall w :: w in table && IsWildcardMatch(w, agent, host, path) ==> |w.pattern| < |path|)
  {
    if forall w :: w in table && IsWildcardMatch(w, agent, host, path) ==> |w.pattern| < |path| {
      forall rows | IsQueryResult(rows, table, agent) ensures FirstMatch(rows, host, path) == Some(e) {
        FirstMatchIsLongest(rows, table, agent, host, path, e);
        assert !IsWildcardMatch(FirstMatch(rows, host, path).value, agent, host, path);
      }
    } else {
      var w :| w in table && IsWildcardMatch(w, agent, host, path) && |w.pattern| >= |path|;
      var matching := set r | r in table && Matches(r, agent, host, path);
      var longest := Longest(matching, w);
      if longest == e {
        longest := w;
      }
      var rows := CanBeChosen(table, agent, host, path, longest);
      assert FirstMatch(rows, host, path) != Some(e);
    }
  }

  /** The wildcards that match a path and are longer than it. */
  predicate LongerWildcard(pattern: string, path: string) {
    || pattern == path + "/*"
    || (path != "" && path[|path| - 1] == '/' && pattern == path + "*")
    || (|path| <= 1 && pattern == "/*") || (path == "" && pattern == "*")
  }

  lemma LongerWildcardIff(pattern: string, path: string)
    ensures LongerWildcard(pattern, path) <==> IsWildcard(pattern) && MatchPath(pattern, path) && |pattern| > |path|
  {
    if LongerWildcard(pattern, path) {
      LongerWildcardMatches(pattern, path);
    } else if IsWildcard(pattern) && MatchPath(pattern, path) && |pattern| > |path| {
      MatchingIsLongerWildcard(pattern, path);
    }
  }

  lemma MatchingIsLongerWildcard(pattern: string, path: string)
    requires IsWildcard(pattern) && MatchPath(pattern, path) && |pattern| > |path|
    ensures LongerWildcard(pattern, path)
  {
    if pattern != "*" && pattern != "/*" {
      var prefix := pattern[..|pattern| - 2];
      assert pattern == prefix + "/*";
      if path != prefix {
        assert path == prefix + "/";
        assert pattern == path + "*";
      }
    }
  }

  lemma LongerWildcardMatches(pattern: string, path: string)
    requires LongerWildcard(pattern, path)
    ensures IsWildcard(pattern) && MatchPath(pattern, path) && |pattern| > |path|
  {
    if pattern == path + "/*" {
      assert pattern[|pattern| - 2..] == "/*" && pattern[..|pattern| - 2] == path;
    } else if path != "" && path[|path| - 1] == '/' && pattern == path + "*" {
      var prefix := path[..|path| - 1];
      assert path == prefix + "/" && pattern == prefix + "/*";
      assert pattern[|pattern| - 2..] == "/*" && pattern[..|pattern| - 2] == prefix;
    }
  }

  /**
   Whatever the order, a wildcard is chosen over the exact route if and only if the table
   has one that is longer than the path: the one below it, or at a trailing slash the path's own.
   */
  lemma WildcardAlwaysChosenIff(table: set<Route>, agent: nat, host: string, path: string, e: Route)
    requires e in table && IsExact(e, agent, host, path)
    ensures (forall rows :: IsQueryResult(rows, table, agent) ==>
               FirstMatch(rows, host, path).Some? && IsWildcard(FirstMatch(rows, host, path).value.pattern))
      <==> (exists w :: w in table && w.agent == agent && w.enabled && w.host == host && LongerWildcard(w.pattern, path))
  {
    if w :| w in table && w.agent == agent && w.enabled && w.host == host && LongerWildcard(w.pattern, path) {
      LongerWildcardIff(w.pattern, path);
      forall rows | IsQueryResult(rows, table, agent)
        ensures FirstMatch(rows, host, path).Some? && IsWildcard(FirstMatch(rows, host, path).value.pattern)
      {
        FirstMatchIsLongest(rows, table, agent, host, path, w);
      }
    } else {
      forall r | r in table && Matches(r, agent, host, path) ensures |r.pattern| <= |path| {
        LongerWildcardIff(r.pattern, path);
      }
      var rows := CanBeChosen(table, agent, host, path, e);
    }
  }
}
