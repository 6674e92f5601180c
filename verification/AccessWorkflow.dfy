/**
 Access requests, credential sessions and action tokens under concurrent handlers.
 Every SQL statement is one step; a handler that has more statements to run holds the
 next one as its ticket, and may crash at any point.
 */
module AccessWorkflow {
  import opened Base
  import opened PolicyParameters
  import opened CustomPolicy

  // ---- Tables and handlers ------------------------------------------------------

  type Id = nat

  datatype Status = Pending | Approved | Rejected | Revoked

  /** Who decides: a signed-in user, or a channel that names itself instead of a user. */
  datatype Actor = User(user: Id) | EmailLink | SlackButton(name: string) | TelegramButton

  datatype Request = Request(status: Status, duration: int, policy: Params)

  /** Times are in seconds. */
  datatype Session = Session(request: Id, active: bool, createdAt: int, expiresAt: int, usage: nat)

  datatype Token = Token(request: Id, approve: bool, expiresAt: int, used: bool)

  /** The statement a handler runs next. */
  datatype Todo =
    | Decide(request: Id, approve: bool, actor: Actor)
    | Issue(request: Id, duration: int)
    | RevokeSession(request: Id)
    | MarkRevoked(request: Id)

  /** What is seen from outside. */
  datatype Event =
    | Decided(request: Id, approve: bool, actor: Actor)
    | Served(request: Id, at: int)
    | SessionRevoked(request: Id)
    | Consumed(token: Id)

  datatype State = State(now: int, requests: map<Id, Request>, sessions: map<Id, Session>, tokens: map<Id, Token>,
                         handlers: map<Id, Todo>, log: seq<Event>)

  const EMPTY := State(0, map[], map[], map[], map[], [])

  // ---- Statements ---------------------------------------------------------------

  function CappedDuration(asked: int, policy: Params): int {
    if asked <= 0 || asked > policy.maxDuration then policy.maxDuration else asked
  }

  /** The request row, under a resolved policy, which is always canonical; an auto-approved one leaves its handler about to issue. */
  function OnCreate(s: State, h: Id, r: Id, policy: Params, asked: int): State {
    if r in s.requests || h in s.handlers || !Canonical(policy) then s
    else
      var duration := CappedDuration(asked, policy);
      if AutoApproved(policy) then
        s.(requests := s.requests[r := Request(Approved, duration, policy)], handlers := s.handlers[h := Issue(r, duration)])
      else s.(requests := s.requests[r := Request(Pending, duration, policy)])
  }

  function OnNewToken(s: State, t: Id, r: Id, approve: bool, ttl: int): State {
    if t in s.tokens || r !in s.requests then s
    else s.(tokens := s.tokens[t := Token(r, approve, s.now + ttl, false)])
  }

  /** A handler that has checked what it checks and comes to its first statement. */
  function OnStart(s: State, h: Id, todo: Todo): State {
    if h in s.handlers || todo.Issue? || todo.MarkRevoked? then s else s.(handlers := s.handlers[h := todo])
  }

  /** Consuming a token burns it, whatever the link's action turns out to be. */
  function OnRedeem(s: State, h: Id, t: Id, approve: bool): State {
    if h in s.handlers || t !in s.tokens || s.tokens[t].used || s.tokens[t].expiresAt <= s.now then s
    else
      var token := s.tokens[t];
      var burnt := s.(tokens := s.tokens[t := token.(used := true)], log := s.log + [Consumed(t)]);
      if token.approve != approve then burnt else burnt.(handlers := s.handlers[h := Decide(token.request, approve, EmailLink)])
  }

  /** The conditional UPDATE: a decider must be a row of users, the request must be pending. */
  function OnDecide(s: State, users: set<Id>, h: Id): State {
    if h !in s.handlers || !s.handlers[h].Decide? then s
    else
      var d := s.handlers[h];
      if !d.actor.User? || d.actor.user !in users || d.request !in s.requests || s.requests[d.request].status != Pending
      then s.(handlers := s.handlers - {h})
      else
        var row := s.requests[d.request];
        s.(requests := s.requests[d.request := row.(status := if d.approve then Approved else Rejected)],
           handlers := if d.approve then s.handlers[h := Issue(d.request, row.duration)] else s.handlers - {h},
           log := s.log + [Decided(d.request, d.approve, d.actor)])
  }

  function OnIssue(s: State, h: Id, k: Id): State {
    if h !in s.handlers || !s.handlers[h].Issue? || k in s.sessions then s
    else
      var i := s.handlers[h];
      s.(sessions := s.sessions[k := Session(i.request, true, s.now, s.now + 60 * i.duration, 0)], handlers := s.handlers - {h})
  }

  predicate Servable(s: State, r: Id) {
    exists k :: k in s.sessions && s.sessions[k].request == r && s.sessions[k].active && s.sessions[k].expiresAt > s.now
  }

  function Counted(s: State, r: Id): map<Id, Session> {
    map k | k in s.sessions :: var c := s.sessions[k];
      if c.request == r && c.active && c.expiresAt > s.now then c.(usage := c.usage + 1) else c
  }

  /** Serving counts the use; a single-use credential's handler revokes it next. */
  function OnGet(s: State, h: Id, r: Id): State {
    if h in s.handlers || r !in s.requests || !Servable(s, r) then s
    else s.(sessions := Counted(s, r), log := s.log + [Served(r, s.now)],
            handlers := if s.requests[r].policy.singleUse then s.handlers[h := RevokeSession(r)] else s.handlers)
  }

  predicate HasActive(s: State, r: Id) {
    exists k :: k in s.sessions && s.sessions[k].request == r && s.sessions[k].active
  }

  function Deactivated(s: State, r: Id): map<Id, Session> {
    map k | k in s.sessions :: if s.sessions[k].request == r then s.sessions[k].(active := false) else s.sessions[k]
  }

  function OnRevokeSession(s: State, h: Id): State {
    if h !in s.handlers || !s.handlers[h].RevokeSession? then s
    else
      var r := s.handlers[h].request;
      if !HasActive(s, r) then s.(handlers := s.handlers - {h})
      else s.(sessions := Deactivated(s, r), handlers := s.handlers[h := MarkRevoked(r)], log := s.log + [SessionRevoked(r)])
  }

  function OnMarkRevoked(s: State, h: Id): State {
    if h !in s.handlers || !s.handlers[h].MarkRevoked? then s
    else
      var r := s.handlers[h].request;
      var done := s.(handlers := s.handlers - {h});
      if r in s.requests && s.requests[r].status == Approved then done.(requests := s.requests[r := s.requests[r].(status := Revoked)])
      else done
  }

  datatype Step =
    | Tick(seconds: nat)
    | Create(h: Id, r: Id, policy: Params, asked: int)
    | NewToken(t: Id, r: Id, approve: bool, ttl: int)
    | StartDecision(h: Id, r: Id, approve: bool, actor: Actor)
    | StartRevoke(h: Id, r: Id)
    | Redeem(h: Id, t: Id, approve: bool)
    | DoDecide(h: Id)
    | DoIssue(h: Id, k: Id)
    | Get(h: Id, r: Id)
    | DoRevokeSession(h: Id)
    | DoMarkRevoked(h: Id)
    | Crash(h: Id)

  function Next(s: State, users: set<Id>, step: Step): State {
    match step
    case Tick(seconds) => s.(now := s.now + seconds)
    case Create(h, r, policy, asked) => OnCreate(s, h, r, policy, asked)
    case NewToken(t, r, approve, ttl) => OnNewToken(s, t, r, approve, ttl)
    case StartDecision(h, r, approve, actor) => OnStart(s, h, Decide(r, approve, actor))
    case StartRevoke(h, r) => OnStart(s, h, RevokeSession(r))
    case Redeem(h, t, approve) => OnRedeem(s, h, t, approve)
    case DoDecide(h) => OnDecide(s, users, h)
    case DoIssue(h, k) => OnIssue(s, h, k)
    case Get(h, r) => OnGet(s, h, r)
    case DoRevokeSession(h) => OnRevokeSession(s, h)
    case DoMarkRevoked(h) => OnMarkRevoked(s, h)
    case Crash(h) => s.(handlers := s.handlers - {h})
  }

  function Run(s: State, users: set<Id>, steps: seq<Step>): State {
    if steps == [] then s else Next(Run(s, users, steps[..|steps| - 1]), users, steps[|steps| - 1])
  }

  // ---- Tables stay in step with tickets -----------------------------------------

  ghost predicate NoSession(s: State, r: Id) {
    forall k :: k in s.sessions ==> s.sessions[k].request != r
  }

  predicate Issuing(s: State, h: Id) {
    h in s.handlers && s.handlers[h].Issue?
  }

  /** An Issue ticket is for an approved request that has no session, and the only one for it. */
  ghost predicate TicketsOk(s: State) {
    && (forall h :: Issuing(s, h) ==> TicketOk(s, s.handlers[h]))
    && (forall h, g :: Issuing(s, h) && Issuing(s, g) && s.handlers[h].request == s.handlers[g].request ==> h == g)
  }

  ghost predicate TicketOk(s: State, t: Todo)
    requires t.Issue?
  {
    && t.request in s.requests && s.requests[t.request].status == Approved
    && t.duration == s.requests[t.request].duration && NoSession(s, t.request)
  }

  /** A session belongs to an approved or revoked request, is its only one, and lasts as long as the request asked. */
  ghost predicate SessionsOk(s: State) {
    && (forall k :: k in s.sessions ==> SessionOk(s, s.sessions[k]))
    && (forall k, l :: k in s.sessions && l in s.sessions && s.sessions[k].request == s.sessions[l].request ==> k == l)
  }

  ghost predicate SessionOk(s: State, c: Session) {
    && c.request in s.requests && s.requests[c.request].status in {Approved, Revoked}
    && c.expiresAt == c.createdAt + 60 * s.requests[c.request].duration
  }

  ghost predicate DurationsOk(s: State) {
    forall r :: r in s.requests ==> 1 <= s.requests[r].duration <= s.requests[r].policy.maxDuration
  }

  /** No session of r is active and none will come. */
  ghost predicate Over(s: State, r: Id) {
    && r in s.requests && s.requests[r].status != Pending
    && (forall k :: k in s.sessions && s.sessions[k].request == r ==> !s.sessions[k].active)
    && (forall h :: Issuing(s, h) ==> s.handlers[h].request != r)
  }

  ghost predicate RevocationsOk(s: State) {
    && (forall r :: r in s.requests && s.requests[r].status == Revoked ==> Over(s, r))
    && (forall h :: h in s.handlers && s.handlers[h].MarkRevoked? ==> Over(s, s.handlers[h].request))
  }

  ghost predicate TablesOk(s: State) {
    TicketsOk(s) && SessionsOk(s) && DurationsOk(s) && RevocationsOk(s)
  }

  /** A request's policy and duration never change; its status goes from pending to a decision and from approved to revoked. */
  lemma RequestsEvolve(s: State, users: set<Id>, step: Step, r: Id)
    requires r in s.requests
    ensures r in Next(s, users, step).requests
    ensures var n := Next(s, users, step);
      && n.requests[r].duration == s.requests[r].duration && n.requests[r].policy == s.requests[r].policy
      && (n.requests[r].status != s.requests[r].status ==> s.requests[r].status == Pending || n.requests[r].status == Revoked)
      && (n.requests[r].status == Pending ==> s.requests[r].status == Pending)
      && (s.requests[r].status == Rejected ==> n.requests[r].status == Rejected)
  {
  }

  /** A session is an old one, at most used or ended, or the one an Issue ticket asked for. */
  lemma SessionEvolves(s: State, users: set<Id>, step: Step, k: Id)
    requires k in Next(s, users, step).sessions
    ensures var c := Next(s, users, step).sessions[k];
      if k in s.sessions then
        c.request == s.sessions[k].request && c.createdAt == s.sessions[k].createdAt && c.expiresAt == s.sessions[k].expiresAt
        && (c.active ==> s.sessions[k].active)
      else
        step.DoIssue? && step.k == k && Issuing(s, step.h) && !Issuing(Next(s, users, step), step.h)
        && c == Session(s.handlers[step.h].request, true, s.now, s.now + 60 * s.handlers[step.h].duration, 0)
  {
  }

  /** A new Issue ticket is for a request that was not approved before, or did not exist. */
  lemma NewTicket(s: State, users: set<Id>, step: Step, h: Id)
    requires SessionsOk(s) && Issuing(Next(s, users, step), h) && !Issuing(s, h)
    ensures var n := Next(s, users, step); var r := n.handlers[h].request;
      TicketOk(n, n.handlers[h]) && (r in s.requests ==> s.requests[r].status == Pending)
    ensures forall g :: g != h && Issuing(Next(s, users, step), g) ==> Issuing(s, g) && Next(s, users, step).handlers[g] == s.handlers[g]
  {
  }

  lemma OldTicket(s: State, users: set<Id>, step: Step, h: Id)
    requires TablesOk(s) && Issuing(Next(s, users, step), h) && Issuing(s, h)
    ensures Next(s, users, step).handlers[h] == s.handlers[h] && TicketOk(Next(s, users, step), s.handlers[h])
  {
    var n := Next(s, users, step);
    TicketStays(s, users, step, h);
    RequestsEvolve(s, users, step, s.handlers[h].request);
    forall k | k in n.sessions ensures n.sessions[k].request != s.handlers[h].request {
      SessionEvolves(s, users, step, k);
    }
  }

  lemma TicketStays(s: State, users: set<Id>, step: Step, h: Id)
    requires TicketsOk(s) && RevocationsOk(s) && Issuing(Next(s, users, step), h) && Issuing(s, h)
    ensures Next(s, users, step).handlers[h] == s.handlers[h] && (step.DoIssue? ==> step.h != h || Next(s, users, step) == s)
    ensures var r := s.handlers[h].request; Next(s, users, step).requests[r].status == Approved
  {
    SameTicket(s, users, step, h);
    var r := s.handlers[h].request;
    assert TicketOk(s, s.handlers[h]);
    RequestsEvolve(s, users, step, r);
    if Next(s, users, step).requests[r].status == Revoked {
      NewlyRevoked(s, users, step, r);
    }
  }

  lemma SameTicket(s: State, users: set<Id>, step: Step, h: Id)
    requires Issuing(Next(s, users, step), h) && Issuing(s, h)
    ensures Next(s, users, step).handlers[h] == s.handlers[h] && (step.DoIssue? ==> step.h != h || Next(s, users, step) == s)
  {
  }

  lemma TicketsKept(s: State, users: set<Id>, step: Step)
    requires TablesOk(s)
    ensures TicketsOk(Next(s, users, step))
  {
    var n := Next(s, users, step);
    forall h | Issuing(n, h) ensures TicketOk(n, n.handlers[h]) {
      if Issuing(s, h) { OldTicket(s, users, step, h); } else { NewTicket(s, users, step, h); }
    }
    forall h, g | Issuing(n, h) && Issuing(n, g) && n.handlers[h].request == n.handlers[g].request ensures h == g {
      if Issuing(s, h) && Issuing(s, g) {
        OldTicket(s, users, step, h);
        OldTicket(s, users, step, g);
      } else if h != g {
        if Issuing(s, h) {
          NewTicket(s, users, step, g);
        } else {
          NewTicket(s, users, step, h);
        }
      }
    }
  }

  lemma SessionsKept(s: State, users: set<Id>, step: Step)
    requires TablesOk(s)
    ensures SessionsOk(Next(s, users, step))
  {
    var n := Next(s, users, step);
    forall k | k in n.sessions ensures SessionOk(n, n.sessions[k]) {
      SessionEvolves(s, users, step, k);
      RequestsEvolve(s, users, step, n.sessions[k].request);
    }
    forall k, l | k in n.sessions && l in n.sessions && n.sessions[k].request == n.sessions[l].request ensures k == l {
      SessionEvolves(s, users, step, k);
      SessionEvolves(s, users, step, l);
    }
  }

  lemma NewRequest(s: State, users: set<Id>, step: Step, r: Id)
    requires r in Next(s, users, step).requests && r !in s.requests
    ensures var row := Next(s, users, step).requests[r]; 1 <= row.duration <= row.policy.maxDuration
  {
  }

  lemma DurationsKept(s: State, users: set<Id>, step: Step)
    requires DurationsOk(s)
    ensures DurationsOk(Next(s, users, step))
  {
    var n := Next(s, users, step);
    forall r | r in n.requests ensures 1 <= n.requests[r].duration <= n.requests[r].policy.maxDuration {
      if r in s.requests {
        RequestsEvolve(s, users, step, r);
      } else {
        NewRequest(s, users, step, r);
      }
    }
  }

  lemma OverIsKept(s: State, users: set<Id>, step: Step, r: Id)
    requires TablesOk(s) && Over(s, r)
    ensures Over(Next(s, users, step), r)
  {
    var n := Next(s, users, step);
    RequestsEvolve(s, users, step, r);
    forall k | k in n.sessions && n.sessions[k].request == r ensures !n.sessions[k].active {
      SessionEvolves(s, users, step, k);
    }
    forall h | Issuing(n, h) ensures n.handlers[h].request != r {
      if Issuing(s, h) {
        TicketStays(s, users, step, h);
      } else {
        NewTicket(s, users, step, h);
      }
    }
  }

  lemma NewlyRevoked(s: State, users: set<Id>, step: Step, r: Id)
    requires RevocationsOk(s) && r in Next(s, users, step).requests && Next(s, users, step).requests[r].status == Revoked
    ensures Over(s, r)
  {
  }

  /** Once its session is ended, a request is over: a session leaves no Issue ticket. */
  lemma EndedIsOver(s: State, h: Id)
    requires TablesOk(s) && h in s.handlers && s.handlers[h].RevokeSession? && HasActive(s, s.handlers[h].request)
    ensures Over(OnRevokeSession(s, h), s.handlers[h].request)
  {
    var r := s.handlers[h].request;
    var k :| k in s.sessions && s.sessions[k].request == r && s.sessions[k].active;
    assert SessionOk(s, s.sessions[k]);
    forall g | Issuing(s, g) ensures s.handlers[g].request != r {
      assert TicketOk(s, s.handlers[g]);
    }
  }

  lemma NewMark(s: State, users: set<Id>, step: Step, h: Id)
    requires h in Next(s, users, step).handlers && Next(s, users, step).handlers[h].MarkRevoked?
    requires !(h in s.handlers && s.handlers[h].MarkRevoked?)
    ensures step.DoRevokeSession? && step.h == h && h in s.handlers && s.handlers[h].RevokeSession? && HasActive(s, s.handlers[h].request)
    ensures Next(s, users, step).handlers[h].request == s.handlers[h].request
  {
  }

  lemma OldMark(s: State, users: set<Id>, step: Step, h: Id)
    requires h in Next(s, users, step).handlers && h in s.handlers && s.handlers[h].MarkRevoked?
    ensures Next(s, users, step).handlers[h] == s.handlers[h]
  {
  }

  lemma NewlyMarking(s: State, users: set<Id>, step: Step, h: Id)
    requires TablesOk(s) && h in Next(s, users, step).handlers && Next(s, users, step).handlers[h].MarkRevoked?
    ensures Over(Next(s, users, step), Next(s, users, step).handlers[h].request)
  {
    if h in s.handlers && s.handlers[h].MarkRevoked? {
      OldMark(s, users, step, h);
      OverIsKept(s, users, step, s.handlers[h].request);
    } else {
      NewMark(s, users, step, h);
      EndedIsOver(s, h);
    }
  }

  lemma RevocationsKept(s: State, users: set<Id>, step: Step)
    requires TablesOk(s)
    ensures RevocationsOk(Next(s, users, step))
  {
    var n := Next(s, users, step);
    forall r | r in n.requests && n.requests[r].status == Revoked ensures Over(n, r) {
      NewlyRevoked(s, users, step, r);
      OverIsKept(s, users, step, r);
    }
    forall h | h in n.handlers && n.handlers[h].MarkRevoked? ensures Over(n, n.handlers[h].request) {
      NewlyMarking(s, users, step, h);
    }
  }

  lemma {:induction false} RunKeepsTables(s: State, users: set<Id>, steps: seq<Step>)
    requires TablesOk(s)
    ensures TablesOk(Run(s, users, steps))
  {
    if steps != [] {
      var before, step := Run(s, users, steps[..|steps| - 1]), steps[|steps| - 1];
      RunKeepsTables(s, users, steps[..|steps| - 1]);
      TicketsKept(before, users, step);
      SessionsKept(before, users, step);
      DurationsKept(before, users, step);
      RevocationsKept(before, users, step);
    }
  }

  // ---- What the log can hold -----------------------------------------------------

  /** An event that may happen in s. */
  predicate Fresh(s: State, users: set<Id>, e: Event) {
    match e
    case Decided(r, _, actor) => r in s.requests && s.requests[r].status == Pending && actor.User? && actor.user in users
    case Served(r, at) => Servable(s, r) && at == s.now
    case SessionRevoked(r) => HasActive(s, r)
    case Consumed(t) => t in s.tokens && !s.tokens[t].used
  }

  /** What stays true once an event has happened. */
  ghost predicate Past(s: State, users: set<Id>, e: Event) {
    match e
    case Decided(r, approve, actor) =>
      && actor.User? && actor.user in users && r in s.requests
      && s.requests[r].status in (if approve then {Approved, Revoked} else {Rejected})
    case Served(r, at) =>
      exists k :: k in s.sessions && s.sessions[k].request == r && s.sessions[k].createdAt <= at < s.sessions[k].expiresAt
    case SessionRevoked(r) => Over(s, r)
    case Consumed(t) => t in s.tokens && s.tokens[t].used
  }

  /** Events of which the second never follows the first. */
  predicate Excludes(e: Event, f: Event) {
    match e
    case Decided(r, _, _) => f.Decided? && f.request == r
    case Served(_, _) => false
    case SessionRevoked(r) => (f.Served? || f.SessionRevoked?) && f.request == r
    case Consumed(t) => f == Consumed(t)
  }

  lemma PastExcludes(s: State, users: set<Id>, e: Event, f: Event)
    requires Past(s, users, e) && Fresh(s, users, f)
    ensures !Excludes(e, f)
  {
  }

  ghost predicate ClockOk(s: State) {
    forall k :: k in s.sessions ==> s.sessions[k].createdAt <= s.now
  }

  ghost predicate LogOk(s: State, users: set<Id>) {
    && ClockOk(s)
    && (forall i :: 0 <= i < |s.log| ==> Past(s, users, s.log[i]))
    && (forall i, j :: 0 <= i < j < |s.log| ==> !Excludes(s.log[i], s.log[j]))
  }

  /** A step adds at most one event, one that may happen where it starts. */
  lemma LogGrows(s: State, users: set<Id>, step: Step)
    ensures var n := Next(s, users, step);
      n.log == s.log || (n.log == s.log + [n.log[|n.log| - 1]] && Fresh(s, users, n.log[|n.log| - 1]))
  {
  }

  lemma PastStays(s: State, users: set<Id>, step: Step, e: Event)
    requires TablesOk(s) && Past(s, users, e)
    ensures Past(Next(s, users, step), users, e)
  {
    match e
    case Decided(r, _, _) =>
      RequestsEvolve(s, users, step, r);
    case Served(_, _) =>
      ServedStaysPast(s, users, step, e);
    case SessionRevoked(r) =>
      OverIsKept(s, users, step, r);
    case Consumed(t) =>
      UsedStaysUsed(s, users, step, t);
  }

  lemma ServedStaysPast(s: State, users: set<Id>, step: Step, e: Event)
    requires e.Served? && Past(s, users, e)
    ensures Past(Next(s, users, step), users, e)
  {
    var k :| k in s.sessions && s.sessions[k].request == e.request && s.sessions[k].createdAt <= e.at < s.sessions[k].expiresAt;
    SessionStays(s, users, step, k);
    SessionEvolves(s, users, step, k);
  }

  lemma UsedStaysUsed(s: State, users: set<Id>, step: Step, t: Id)
    requires t in s.tokens && s.tokens[t].used
    ensures t in Next(s, users, step).tokens && Next(s, users, step).tokens[t].used
  {
  }

  lemma SessionStays(s: State, users: set<Id>, step: Step, k: Id)
    requires k in s.sessions
    ensures k in Next(s, users, step).sessions
  {
  }

  lemma ServedIsPast(s: State, users: set<Id>, h: Id, r: Id)
    requires ClockOk(s) && |OnGet(s, h, r).log| > |s.log|
    ensures Past(OnGet(s, h, r), users, OnGet(s, h, r).log[|s.log|])
  {
    var k :| k in s.sessions && s.sessions[k].request == r && s.sessions[k].active && s.sessions[k].expiresAt > s.now;
    var n := OnGet(s, h, r);
    assert k in n.sessions && n.sessions[k].request == r && n.sessions[k].createdAt <= s.now < n.sessions[k].expiresAt;
  }

  lemma RevokedIsPast(s: State, users: set<Id>, h: Id)
    requires TablesOk(s) && |OnRevokeSession(s, h).log| > |s.log|
    ensures Past(OnRevokeSession(s, h), users, OnRevokeSession(s, h).log[|s.log|])
  {
    EndedIsOver(s, h);
  }

  lemma NewIsPast(s: State, users: set<Id>, step: Step)
    requires TablesOk(s) && ClockOk(s) && |Next(s, users, step).log| > |s.log|
    ensures Past(Next(s, users, step), users, Next(s, users, step).log[|s.log|])
  {
    if step.DoRevokeSession? {
      RevokedIsPast(s, users, step.h);
    } else if step.Get? {
      ServedIsPast(s, users, step.h, step.r);
    } else {
      OtherIsPast(s, users, step);
    }
  }

  lemma OtherIsPast(s: State, users: set<Id>, step: Step)
    requires !step.DoRevokeSession? && !step.Get? && |Next(s, users, step).log| > |s.log|
    ensures Past(Next(s, users, step), users, Next(s, users, step).log[|s.log|])
  {
  }

  lemma ClockKept(s: State, users: set<Id>, step: Step)
    requires ClockOk(s)
    ensures ClockOk(Next(s, users, step))
  {
    forall k | k in Next(s, users, step).sessions ensures Next(s, users, step).sessions[k].createdAt <= Next(s, users, step).now {
      SessionEvolves(s, users, step, k);
    }
  }

  /** What was past stays past, and a new event is past and excluded by nothing before it. */
  lemma LogExtends(s: State, n: State, users: set<Id>)
    requires LogOk(s, users) && ClockOk(n)
    requires forall i :: 0 <= i < |s.log| ==> Past(n, users, s.log[i])
    requires n.log == s.log || (|n.log| == |s.log| + 1 && n.log[..|s.log|] == s.log && Fresh(s, users, n.log[|s.log|]) && Past(n, users, n.log[|s.log|]))
    ensures LogOk(n, users)
  {
    forall i | 0 <= i < |n.log| ensures Past(n, users, n.log[i]) {
      if i < |s.log| {
        assert n.log[i] == s.log[i];
      }
    }
    forall i, j | 0 <= i < j < |n.log| ensures !Excludes(n.log[i], n.log[j]) {
      assert n.log[i] == s.log[i];
      if j < |s.log| {
        assert n.log[j] == s.log[j];
      } else {
        PastExcludes(s, users, s.log[i], n.log[j]);
      }
    }
  }

  lemma NextKeepsLog(s: State, users: set<Id>, step: Step)
    requires TablesOk(s) && LogOk(s, users)
    ensures LogOk(Next(s, users, step), users)
  {
    LogGrows(s, users, step);
    ClockKept(s, users, step);
    forall i | 0 <= i < |s.log| ensures Past(Next(s, users, step), users, s.log[i]) {
      PastStays(s, users, step, s.log[i]);
    }
    if Next(s, users, step).log != s.log {
      NewIsPast(s, users, step);
    }
    LogExtends(s, Next(s, users, step), users);
  }

  lemma {:induction false} RunKeepsLog(users: set<Id>, steps: seq<Step>)
    ensures TablesOk(Run(EMPTY, users, steps)) && LogOk(Run(EMPTY, users, steps), users)
  {
    RunKeepsTables(EMPTY, users, steps);
    if steps != [] {
      RunKeepsLog(users, steps[..|steps| - 1]);
      NextKeepsLog(Run(EMPTY, users, steps[..|steps| - 1]), users, steps[|steps| - 1]);
    }
  }

  // ---- Safety of every run --------------------------------------------------------

  /** A request is decided at most once, by a user, and its status shows which way. */
  lemma DecidedAtMostOnce(users: set<Id>, steps: seq<Step>, i: nat, j: nat)
    requires i < j <= |Run(EMPTY, users, steps).log| && Run(EMPTY, users, steps).log[i].Decided?
    ensures var s := Run(EMPTY, users, steps); var d := s.log[i];
      && d.actor.User? && d.actor.user in users && d.request in s.requests
      && (d.approve <==> s.requests[d.request].status in {Approved, Revoked}) && (!d.approve <==> s.requests[d.request].status == Rejected)
    ensures var log := Run(EMPTY, users, steps).log;
      j < |log| ==> !(log[j].Decided? && log[j].request == log[i].request)
  {
    RunKeepsLog(users, steps);
    var s := Run(EMPTY, users, steps);
    assert Past(s, users, s.log[i]);
    assert j < |s.log| ==> !Excludes(s.log[i], s.log[j]);
  }

  /** A request has at most one session ever, only once approved, never when rejected, and its length lies between a minute and the policy's maximum. */
  lemma AtMostOneSession(users: set<Id>, steps: seq<Step>, k: Id, l: Id)
    requires var s := Run(EMPTY, users, steps); k in s.sessions && l in s.sessions && s.sessions[k].request == s.sessions[l].request
    ensures k == l
    ensures var s := Run(EMPTY, users, steps); var c := s.sessions[k];
      && c.request in s.requests && s.requests[c.request].status in {Approved, Revoked}
      && 60 <= c.expiresAt - c.createdAt <= 60 * s.requests[c.request].policy.maxDuration
  {
    RunKeepsTables(EMPTY, users, steps);
    var s := Run(EMPTY, users, steps);
    assert SessionOk(s, s.sessions[k]);
  }

  lemma ConsumedAtMostOnce(users: set<Id>, steps: seq<Step>, i: nat, j: nat)
    requires i < j < |Run(EMPTY, users, steps).log| && Run(EMPTY, users, steps).log[i].Consumed?
    ensures Run(EMPTY, users, steps).log[j] != Run(EMPTY, users, steps).log[i]
  {
    RunKeepsLog(users, steps);
    var log := Run(EMPTY, users, steps).log;
    assert !Excludes(log[i], log[j]);
  }

  /** Each value is served within its session's lifetime and never after the session was revoked. */
  lemma ServedOnlyWhileLive(users: set<Id>, steps: seq<Step>, j: nat)
    requires j < |Run(EMPTY, users, steps).log| && Run(EMPTY, users, steps).log[j].Served?
    ensures var s := Run(EMPTY, users, steps); var e := s.log[j];
      exists k :: k in s.sessions && s.sessions[k].request == e.request && s.sessions[k].createdAt <= e.at < s.sessions[k].expiresAt
    ensures var log := Run(EMPTY, users, steps).log;
      forall i :: 0 <= i < j ==> log[i] != SessionRevoked(log[j].request)
  {
    RunKeepsLog(users, steps);
    var s := Run(EMPTY, users, steps);
    assert Past(s, users, s.log[j]);
    forall i | 0 <= i < j ensures s.log[i] != SessionRevoked(s.log[j].request) {
      assert !Excludes(s.log[i], s.log[j]);
    }
  }

  // ---- Usage counts ---------------------------------------------------------------

  /** How often r's value was served. */
  function TimesServed(log: seq<Event>, r: Id): nat {
    if log == [] then 0
    else TimesServed(log[..|log| - 1], r) + if log[|log| - 1].Served? && log[|log| - 1].request == r then 1 else 0
  }

  lemma ServedOneMore(log: seq<Event>, e: Event, r: Id)
    ensures TimesServed(log + [e], r) == TimesServed(log, r) + if e.Served? && e.request == r then 1 else 0
  {
    assert (log + [e])[..|log|] == log;
  }

  ghost predicate UsageOk(s: State) {
    && (forall k :: k in s.sessions ==> s.sessions[k].usage == TimesServed(s.log, s.sessions[k].request))
    && (forall r :: NoSession(s, r) ==> TimesServed(s.log, r) == 0)
  }

  /** The step serves r's value. */
  predicate ServesNow(s: State, step: Step, r: Id) {
    step.Get? && step.r == r && step.h !in s.handlers && r in s.requests && Servable(s, r)
  }

  /** The step's effect on the count of values served for r. */
  lemma ServingCounts(s: State, users: set<Id>, step: Step, r: Id)
    ensures TimesServed(Next(s, users, step).log, r) == TimesServed(s.log, r) + if ServesNow(s, step, r) then 1 else 0
  {
    var n := Next(s, users, step);
    LogGrows(s, users, step);
    if n.log != s.log {
      ServedOneMore(s.log, n.log[|n.log| - 1], r);
    }
  }

  /** The only use of a request's session in a step is the value the step serves. */
  lemma UsageEvolves(s: State, users: set<Id>, step: Step, k: Id)
    requires SessionsOk(s) && k in s.sessions
    ensures k in Next(s, users, step).sessions
    ensures Next(s, users, step).sessions[k].usage == s.sessions[k].usage + if ServesNow(s, step, s.sessions[k].request) then 1 else 0
  {
    if step.Get? && ServesNow(s, step, step.r) {
      var l :| l in s.sessions && s.sessions[l].request == step.r && s.sessions[l].active && s.sessions[l].expiresAt > s.now;
      assert s.sessions[k].request == step.r ==> k == l;
    }
  }

  lemma NextKeepsUsage(s: State, users: set<Id>, step: Step)
    requires TablesOk(s) && UsageOk(s)
    ensures UsageOk(Next(s, users, step))
  {
    var n := Next(s, users, step);
    forall k | k in n.sessions ensures n.sessions[k].usage == TimesServed(n.log, n.sessions[k].request) {
      SessionEvolves(s, users, step, k);
      ServingCounts(s, users, step, n.sessions[k].request);
      if k in s.sessions {
        UsageEvolves(s, users, step, k);
      } else {
        assert TicketOk(s, s.handlers[step.h]);
      }
    }
    forall r | NoSession(n, r) ensures TimesServed(n.log, r) == 0 {
      forall k | k in s.sessions ensures s.sessions[k].request != r {
        SessionStays(s, users, step, k);
        SessionEvolves(s, users, step, k);
      }
      ServingCounts(s, users, step, r);
    }
  }

  /** In every run a session's usage count is the number of values served for its request. */
  lemma {:induction false} UsageIsTimesServed(users: set<Id>, steps: seq<Step>)
    ensures UsageOk(Run(EMPTY, users, steps))
  {
    if steps != [] {
      UsageIsTimesServed(users, steps[..|steps| - 1]);
      RunKeepsTables(EMPTY, users, steps[..|steps| - 1]);
      NextKeepsUsage(Run(EMPTY, users, steps[..|steps| - 1]), users, steps[|steps| - 1]);
    }
  }

  // ---- Single use -------------------------------------------------------------------

  /** Step i serves a value of r. */
  predicate Serves(users: set<Id>, steps: seq<Step>, i: nat, r: Id)
    requires i < |steps|
  {
    ServesNow(Run(EMPTY, users, steps[..i]), steps[i], r)
  }

  ghost predicate IsSingleUse(s: State, r: Id) {
    r in s.requests && s.requests[r].policy.singleUse
  }

  predicate RevokesNext(s: State, h: Id, r: Id) {
    h in s.handlers && s.handlers[h] == RevokeSession(r)
  }

  /** Without an active session, and with one in the past, r never has an active session again. */
  lemma StaysInactive(s: State, users: set<Id>, step: Step, r: Id)
    requires TablesOk(s) && !HasActive(s, r) && !NoSession(s, r)
    ensures !HasActive(Next(s, users, step), r)
  {
    var n := Next(s, users, step);
    if HasActive(n, r) {
      var k :| k in n.sessions && n.sessions[k].request == r && n.sessions[k].active;
      SessionEvolves(s, users, step, k);
    }
  }

  lemma ServingLeavesTicket(s: State, users: set<Id>, step: Step, r: Id)
    requires ServesNow(s, step, r) && IsSingleUse(s, r)
    ensures RevokesNext(Next(s, users, step), step.h, r)
  {
  }

  lemma RevokingEnds(s: State, users: set<Id>, h: Id, r: Id)
    requires RevokesNext(s, h, r)
    ensures !HasActive(Next(s, users, DoRevokeSession(h)), r)
  {
  }

  /** The state before step i. */
  function At(users: set<Id>, steps: seq<Step>, i: nat): State
    requires i <= |steps|
  {
    Run(EMPTY, users, steps[..i])
  }

  lemma NextAt(users: set<Id>, steps: seq<Step>, i: nat)
    requires i < |steps|
    ensures At(users, steps, i + 1) == Next(At(users, steps, i), users, steps[i])
  {
    assert steps[..i + 1][..i] == steps[..i];
  }

  lemma ServesPrefix(users: set<Id>, steps: seq<Step>, n: nat, i: nat, r: Id)
    requires i < n <= |steps|
    ensures Serves(users, steps[..n], i, r) <==> Serves(users, steps, i, r)
  {
    assert steps[..n][..i] == steps[..i];
  }

  /** A value served means a step that served it. */
  lemma {:induction false} ServedMeansServes(users: set<Id>, steps: seq<Step>, r: Id) returns (i: nat)
    requires TimesServed(Run(EMPTY, users, steps).log, r) >= 1
    ensures i < |steps| && Serves(users, steps, i, r)
  {
    var n := |steps| - 1;
    ServingCounts(Run(EMPTY, users, steps[..n]), users, steps[n], r);
    if Serves(users, steps, n, r) {
      i := n;
    } else {
      i := ServedMeansServes(users, steps[..n], r);
      ServesPrefix(users, steps, n, i, r);
    }
  }

  /** Two values served mean two steps that served them. */
  lemma {:induction false} ServedTwiceMeansServes(users: set<Id>, steps: seq<Step>, r: Id) returns (i: nat, j: nat)
    requires TimesServed(Run(EMPTY, users, steps).log, r) >= 2
    ensures i < j < |steps| && Serves(users, steps, i, r) && Serves(users, steps, j, r)
  {
    var n := |steps| - 1;
    ServingCounts(Run(EMPTY, users, steps[..n]), users, steps[n], r);
    if Serves(users, steps, n, r) {
      i := ServedMeansServes(users, steps[..n], r);
      j := n;
      ServesPrefix(users, steps, n, i, r);
    } else {
      i, j := ServedTwiceMeansServes(users, steps[..n], r);
      ServesPrefix(users, steps, n, i, r);
      ServesPrefix(users, steps, n, j, r);
    }
  }

  lemma ServesMeansServed(users: set<Id>, steps: seq<Step>, i: nat, j: nat, r: Id)
    requires i < j < |steps| && Serves(users, steps, i, r) && Serves(users, steps, j, r)
    ensures TimesServed(Run(EMPTY, users, steps).log, r) >= 2
  {
    NextAt(users, steps, i);
    ServingCounts(At(users, steps, i), users, steps[i], r);
    CountGrows(users, steps, i + 1, j, r);
    NextAt(users, steps, j);
    ServingCounts(At(users, steps, j), users, steps[j], r);
    CountGrows(users, steps, j + 1, |steps|, r);
    assert steps[..|steps|] == steps;
  }

  lemma {:induction false} CountGrows(users: set<Id>, steps: seq<Step>, i: nat, j: nat, r: Id)
    requires i <= j <= |steps|
    ensures TimesServed(At(users, steps, i).log, r) <= TimesServed(At(users, steps, j).log, r)
    decreases j - i
  {
    if i < j {
      NextAt(users, steps, i);
      ServingCounts(At(users, steps, i), users, steps[i], r);
      CountGrows(users, steps, i + 1, j, r);
    }
  }

  /** Step i runs a revocation that ends r's session, or finds none. */
  predicate Revokes(users: set<Id>, steps: seq<Step>, i: nat, r: Id)
    requires i < |steps|
  {
    steps[i].DoRevokeSession? && RevokesNext(At(users, steps, i), steps[i].h, r)
  }

  /** Step i fetches r's credential at a time when its session, ended or not, has not run out. */
  ghost predicate FetchesInTime(users: set<Id>, steps: seq<Step>, i: nat, r: Id)
    requires i < |steps|
  {
    var s := At(users, steps, i);
    && steps[i].Get? && steps[i].r == r && steps[i].h !in s.handlers && r in s.requests
    && exists k :: k in s.sessions && s.sessions[k].request == r && s.sessions[k].expiresAt > s.now
  }

  /** Only a revocation of r ends r's session. */
  lemma StaysActive(s: State, users: set<Id>, step: Step, k: Id)
    requires k in s.sessions && s.sessions[k].active
    requires !(step.DoRevokeSession? && RevokesNext(s, step.h, s.sessions[k].request))
    ensures var n := Next(s, users, step); k in n.sessions && n.sessions[k].active && n.sessions[k].request == s.sessions[k].request
  {
  }

  lemma {:induction false} ActiveUntilRevoked(users: set<Id>, steps: seq<Step>, i: nat, j: nat, k: Id, r: Id)
    requires i <= j <= |steps|
    requires var s := At(users, steps, i); k in s.sessions && s.sessions[k].active && s.sessions[k].request == r
    requires forall m :: i <= m < j ==> !Revokes(users, steps, m, r)
    ensures var s := At(users, steps, j); k in s.sessions && s.sessions[k].active && s.sessions[k].request == r
    decreases j - i
  {
    if i < j {
      NextAt(users, steps, i);
      assert !Revokes(users, steps, i, r);
      StaysActive(At(users, steps, i), users, steps[i], k);
      ActiveUntilRevoked(users, steps, i + 1, j, k, r);
    }
  }

  lemma {:induction false} InactiveFrom(users: set<Id>, steps: seq<Step>, i: nat, j: nat, r: Id)
    requires i <= j <= |steps| && !HasActive(At(users, steps, i), r) && !NoSession(At(users, steps, i), r)
    ensures !HasActive(At(users, steps, j), r)
    decreases j - i
  {
    if i < j {
      NextAt(users, steps, i);
      RunKeepsTables(EMPTY, users, steps[..i]);
      StaysInactive(At(users, steps, i), users, steps[i], r);
      SessionsStay(At(users, steps, i), users, steps[i], r);
      InactiveFrom(users, steps, i + 1, j, r);
    }
  }

  lemma SessionsStay(s: State, users: set<Id>, step: Step, r: Id)
    requires !NoSession(s, r)
    ensures !NoSession(Next(s, users, step), r)
  {
    var k :| k in s.sessions && s.sessions[k].request == r;
    SessionStays(s, users, step, k);
    SessionEvolves(s, users, step, k);
  }

  /**
   A value is served twice exactly when it is served and, with no revocation in between, fetched
   again before its session runs out. What else runs in between, and on whose behalf, does not matter.
   */
  lemma ServedTwiceIff(users: set<Id>, steps: seq<Step>, r: Id)
    ensures TimesServed(Run(EMPTY, users, steps).log, r) >= 2 <==>
      exists i, j :: 0 <= i < j < |steps| && Serves(users, steps, i, r) && FetchesInTime(users, steps, j, r)
                     && forall m :: i < m < j ==> !Revokes(users, steps, m, r)
  {
    if TimesServed(Run(EMPTY, users, steps).log, r) >= 2 {
      var i, j := ServedTwiceMeansServes(users, steps, r);
      forall m | i < m < j ensures !Revokes(users, steps, m, r) {
        if Revokes(users, steps, m, r) {
          RevokedThenNotServed(users, steps, i, m, j, r);
        }
      }
      assert FetchesInTime(users, steps, j, r);
    }
    if i, j :| 0 <= i < j < |steps| && Serves(users, steps, i, r) && FetchesInTime(users, steps, j, r)
               && forall m :: i < m < j ==> !Revokes(users, steps, m, r) {
      FetchedAgainIsServed(users, steps, i, j, r);
      ServesMeansServed(users, steps, i, j, r);
    }
  }

  lemma RevokedThenNotServed(users: set<Id>, steps: seq<Step>, i: nat, m: nat, j: nat, r: Id)
    requires i < m < j < |steps| && Serves(users, steps, i, r) && Revokes(users, steps, m, r)
    ensures !Serves(users, steps, j, r)
  {
    NextAt(users, steps, m);
    RevokingEnds(At(users, steps, m), users, steps[m].h, r);
    ServedHasSession(users, steps, i, m + 1, r);
    InactiveFrom(users, steps, m + 1, j, r);
  }

  lemma {:induction false} ServedHasSession(users: set<Id>, steps: seq<Step>, i: nat, j: nat, r: Id)
    requires i < j <= |steps| && Serves(users, steps, i, r)
    ensures !NoSession(At(users, steps, j), r)
    decreases j
  {
    NextAt(users, steps, j - 1);
    if i < j - 1 {
      ServedHasSession(users, steps, i, j - 1, r);
    } else {
      var s := At(users, steps, i);
      var k :| k in s.sessions && s.sessions[k].request == r && s.sessions[k].active && s.sessions[k].expiresAt > s.now;
    }
    SessionsStay(At(users, steps, j - 1), users, steps[j - 1], r);
  }

  lemma FetchedAgainIsServed(users: set<Id>, steps: seq<Step>, i: nat, j: nat, r: Id)
    requires i < j < |steps| && Serves(users, steps, i, r) && FetchesInTime(users, steps, j, r)
    requires forall m :: i < m < j ==> !Revokes(users, steps, m, r)
    ensures Serves(users, steps, j, r)
  {
    var s, t := At(users, steps, i), At(users, steps, j);
    var k :| k in s.sessions && s.sessions[k].request == r && s.sessions[k].active && s.sessions[k].expiresAt > s.now;
    ActiveUntilRevoked(users, steps, i, j, k, r);
    RunKeepsTables(EMPTY, users, steps[..j]);
    var l :| l in t.sessions && t.sessions[l].request == r && t.sessions[l].expiresAt > t.now;
    assert k == l;
  }

  /** After step i, before step j, the handler that served r has run its revocation; one that crashed first has not. */
  ghost predicate RevokedBetween(steps: seq<Step>, i: nat, j: nat)
    requires i < j <= |steps| && steps[i].Get?
  {
    exists m :: i < m < j && steps[m] == DoRevokeSession(steps[i].h)
                && forall l :: i < l < m ==> steps[l] != Crash(steps[i].h) && steps[l] != DoRevokeSession(steps[i].h)
  }

  /** Handlers for r do not overlap: whoever serves r has revoked before the next fetch of r. Other handlers run as they like. */
  ghost predicate NoOverlap(users: set<Id>, steps: seq<Step>, r: Id) {
    forall i, j :: 0 <= i < j < |steps| && Serves(users, steps, i, r) && steps[j].Get? && steps[j].r == r ==> RevokedBetween(steps, i, j)
  }

  lemma TicketWaits(s: State, users: set<Id>, step: Step, h: Id, r: Id)
    requires RevokesNext(s, h, r) && step != Crash(h) && step != DoRevokeSession(h)
    ensures RevokesNext(Next(s, users, step), h, r)
  {
  }

  lemma {:induction false} TicketWaitsUntil(users: set<Id>, steps: seq<Step>, i: nat, j: nat, h: Id, r: Id)
    requires i <= j <= |steps| && RevokesNext(At(users, steps, i), h, r)
    requires forall l :: i <= l < j ==> steps[l] != Crash(h) && steps[l] != DoRevokeSession(h)
    ensures RevokesNext(At(users, steps, j), h, r)
    decreases j - i
  {
    if i < j {
      NextAt(users, steps, i);
      TicketWaits(At(users, steps, i), users, steps[i], h, r);
      TicketWaitsUntil(users, steps, i + 1, j, h, r);
    }
  }

  /** A request's policy is that of its row in every later state. */
  lemma {:induction false} PolicyFixed(users: set<Id>, steps: seq<Step>, i: nat, r: Id)
    requires i <= |steps| && r in At(users, steps, i).requests
    ensures r in Run(EMPTY, users, steps).requests
    ensures Run(EMPTY, users, steps).requests[r].policy == At(users, steps, i).requests[r].policy
    decreases |steps| - i
  {
    if i < |steps| {
      NextAt(users, steps, i);
      RequestsEvolve(At(users, steps, i), users, steps[i], r);
      PolicyFixed(users, steps, i + 1, r);
    } else {
      assert steps[..i] == steps;
    }
  }

  /** Over every interleaving with anything else, a single-use credential whose own handlers do not overlap is served at most once. */
  lemma SingleUseServedOnce(users: set<Id>, steps: seq<Step>, r: Id)
    requires IsSingleUse(Run(EMPTY, users, steps), r) && NoOverlap(users, steps, r)
    ensures TimesServed(Run(EMPTY, users, steps).log, r) <= 1
  {
    if TimesServed(Run(EMPTY, users, steps).log, r) >= 2 {
      var i, j := ServedTwiceMeansServes(users, steps, r);
      assert RevokedBetween(steps, i, j);
      var h := steps[i].h;
      var m :| i < m < j && steps[m] == DoRevokeSession(h)
               && forall l :: i < l < m ==> steps[l] != Crash(h) && steps[l] != DoRevokeSession(h);
      PolicyFixed(users, steps, i, r);
      NextAt(users, steps, i);
      ServingLeavesTicket(At(users, steps, i), users, steps[i], r);
      TicketWaitsUntil(users, steps, i + 1, m, h, r);
      RevokedThenNotServed(users, steps, i, m, j, r);
    }
  }

  lemma RunOneMore(s: State, users: set<Id>, steps: seq<Step>, step: Step)
    ensures Run(s, users, steps + [step]) == Next(Run(s, users, steps), users, step)
  {
    assert (steps + [step])[..|steps|] == steps;
  }

  const SINGLE_USE := DefaultsForTier(High)

  /** Two handlers that are both about to fetch a servable single-use credential both get its value. */
  lemma TwoGetsServeTwice(s: State, users: set<Id>, k: Id, h: Id, g: Id, r: Id)
    requires r in s.requests && k in s.sessions && s.sessions[k].request == r && s.sessions[k].active && s.sessions[k].expiresAt > s.now
    requires h !in s.handlers && g !in s.handlers && h != g
    ensures TimesServed(Next(Next(s, users, Get(h, r)), users, Get(g, r)).log, r) == TimesServed(s.log, r) + 2
  {
    var m := Next(s, users, Get(h, r));
    assert Servable(s, r);
    assert k in m.sessions && m.sessions[k].request == r && m.sessions[k].active && m.sessions[k].expiresAt > m.now;
    ServingCounts(s, users, Get(h, r), r);
    ServingCounts(m, users, Get(g, r), r);
  }

  lemma IssuedState(users: set<Id>)
    requires 1 in users
    ensures var s := Run(EMPTY, users, [Create(0, 7, SINGLE_USE, 10), StartDecision(1, 7, true, User(1)), DoDecide(1)] + [DoIssue(1, 0)]);
      && s.requests == map[7 := Request(Approved, 10, SINGLE_USE)] && s.sessions == map[0 := Session(7, true, 0, 600, 0)]
      && s.handlers == map[] && s.now == 0 && s.log == [Decided(7, true, User(1))]
  {
    ThreeSteps(EMPTY, users, Create(0, 7, SINGLE_USE, 10), StartDecision(1, 7, true, User(1)), DoDecide(1));
    RunOneMore(EMPTY, users, [Create(0, 7, SINGLE_USE, 10), StartDecision(1, 7, true, User(1)), DoDecide(1)], DoIssue(1, 0));
    var created := Next(EMPTY, users, Create(0, 7, SINGLE_USE, 10));
    assert created.requests == map[7 := Request(Pending, 10, SINGLE_USE)];
    var decided := Next(Next(created, users, StartDecision(1, 7, true, User(1))), users, DoDecide(1));
    assert decided.handlers == map[1 := Issue(7, 10)];
  }

  /** Two handlers that overlap can both serve the value of a single-use credential. */
  lemma OverlapServesTwice(users: set<Id>)
    requires 1 in users
    ensures exists steps :: var s := Run(EMPTY, users, steps); IsSingleUse(s, 7) && TimesServed(s.log, 7) == 2
  {
    var issued := [Create(0, 7, SINGLE_USE, 10), StartDecision(1, 7, true, User(1)), DoDecide(1)] + [DoIssue(1, 0)];
    IssuedState(users);
    var s := Run(EMPTY, users, issued);
    TwoGetsServeTwice(s, users, 0, 2, 3, 7);
    RunOneMore(EMPTY, users, issued, Get(2, 7));
    RunOneMore(EMPTY, users, issued + [Get(2, 7)], Get(3, 7));
    assert TimesServed([], 7) == 0;
    ServedOneMore([], Decided(7, true, User(1)), 7);
    assert [] + [Decided(7, true, User(1))] == s.log;
    RequestsEvolve(s, users, Get(2, 7), 7);
    RequestsEvolve(Next(s, users, Get(2, 7)), users, Get(3, 7), 7);
    assert IsSingleUse(Run(EMPTY, users, issued + [Get(2, 7)] + [Get(3, 7)]), 7);
  }

  lemma TwoSteps(s: State, users: set<Id>, a: Step, b: Step)
    ensures Run(s, users, [a, b]) == Next(Next(s, users, a), users, b)
  {
    RunOneMore(s, users, [], a);
    RunOneMore(s, users, [a], b);
    assert [] + [a] == [a] && [a] + [b] == [a, b];
  }

  lemma ThreeSteps(s: State, users: set<Id>, a: Step, b: Step, c: Step)
    ensures Run(s, users, [a, b, c]) == Next(Next(Next(s, users, a), users, b), users, c)
  {
    RunOneMore(s, users, [], a);
    RunOneMore(s, users, [a], b);
    RunOneMore(s, users, [a] + [b], c);
    assert [] + [a] == [a] && [a] + [b] + [c] == [a, b, c];
  }

  // ---- Channels and crashes -----------------------------------------------------------

  /** Redeeming a link burns its token and leaves the request as it was: the link's name for itself is no row of users. */
  lemma LinksDecideNothing(s: State, users: set<Id>, h: Id, t: Id, approve: bool)
    requires h !in s.handlers && t in s.tokens && !s.tokens[t].used && s.now < s.tokens[t].expiresAt
    ensures var n := Next(Next(s, users, Redeem(h, t, approve)), users, DoDecide(h));
      n == s.(tokens := s.tokens[t := s.tokens[t].(used := true)], log := s.log + [Consumed(t)])
  {
    var m := Next(s, users, Redeem(h, t, approve));
    assert h !in s.handlers && s.handlers - {h} == s.handlers;
    assert s.handlers[h := Decide(s.tokens[t].request, approve, EmailLink)] - {h} == s.handlers;
  }

  /** Every decision on its way names a channel, and every request is pending or was approved without a decision. */
  ghost predicate Undecided(s: State) {
    && (forall h :: h in s.handlers && s.handlers[h].Decide? ==> !s.handlers[h].actor.User?)
    && (forall r :: r in s.requests ==> s.requests[r].status == Pending || AutoApproved(s.requests[r].policy))
    && (forall i :: 0 <= i < |s.log| ==> !s.log[i].Decided?)
  }

  predicate NamesChannel(step: Step) {
    step.StartDecision? ==> !step.actor.User?
  }

  /** A request stops being pending only by a user's decision. */
  lemma PendingUntilDecided(s: State, users: set<Id>, step: Step, r: Id)
    requires r in s.requests && s.requests[r].status == Pending && Next(s, users, step).requests[r].status != Pending
    requires RevocationsOk(s)
    ensures step.DoDecide? && step.h in s.handlers && s.handlers[step.h].Decide? && s.handlers[step.h].actor.User?
  {
  }

  lemma ChannelRequest(s: State, users: set<Id>, step: Step, r: Id)
    requires TablesOk(s) && Undecided(s) && r in Next(s, users, step).requests
    ensures var row := Next(s, users, step).requests[r]; row.status == Pending || AutoApproved(row.policy)
  {
    if r in s.requests {
      RequestsEvolve(s, users, step, r);
      if s.requests[r].status == Pending && Next(s, users, step).requests[r].status != Pending {
        PendingUntilDecided(s, users, step, r);
      }
    } else {
      CreatedRequest(s, users, step, r);
    }
  }

  lemma CreatedRequest(s: State, users: set<Id>, step: Step, r: Id)
    requires r !in s.requests && r in Next(s, users, step).requests
    ensures var row := Next(s, users, step).requests[r]; row.status == Pending || AutoApproved(row.policy)
  {
  }

  lemma ChannelLog(s: State, users: set<Id>, step: Step)
    requires Undecided(s)
    ensures forall i :: 0 <= i < |Next(s, users, step).log| ==> !Next(s, users, step).log[i].Decided?
  {
  }

  lemma ChannelHandlers(s: State, users: set<Id>, step: Step)
    requires Undecided(s) && NamesChannel(step)
    ensures var n := Next(s, users, step); forall h :: h in n.handlers && n.handlers[h].Decide? ==> !n.handlers[h].actor.User?
  {
  }

  lemma ChannelStep(s: State, users: set<Id>, step: Step)
    requires TablesOk(s) && Undecided(s) && NamesChannel(step)
    ensures Undecided(Next(s, users, step))
  {
    var n := Next(s, users, step);
    ChannelHandlers(s, users, step);
    ChannelLog(s, users, step);
    forall r | r in n.requests ensures n.requests[r].status == Pending || AutoApproved(n.requests[r].policy) {
      ChannelRequest(s, users, step, r);
    }
  }

  /** In a run in which only links and chat buttons decide, redeemed and pressed as often as one likes, no request is ever decided. */
  lemma {:induction false} ChannelsDecideNothing(users: set<Id>, steps: seq<Step>)
    requires forall i :: 0 <= i < |steps| ==> NamesChannel(steps[i])
    ensures Undecided(Run(EMPTY, users, steps))
  {
    if steps != [] {
      ChannelsDecideNothing(users, steps[..|steps| - 1]);
      RunKeepsTables(EMPTY, users, steps[..|steps| - 1]);
      ChannelStep(Run(EMPTY, users, steps[..|steps| - 1]), users, steps[|steps| - 1]);
    }
  }

  /** Some handler is about to issue r's session, r may be decided, or may yet be created. */
  ghost predicate MayBeIssued(s: State, users: set<Id>, r: Id) {
    r !in s.requests || (s.requests[r].status == Pending && users != {}) || exists h :: Issuing(s, h) && s.handlers[h].request == r
  }

  /** r's session is active and has not run out, or there is none and may yet be one. */
  ghost predicate Hopeful(s: State, users: set<Id>, r: Id) {
    Servable(s, r) || (NoSession(s, r) && MayBeIssued(s, users, r))
  }

  /** A pending request is decided by a user. */
  lemma NewTicketNeedsUser(s: State, users: set<Id>, step: Step, h: Id)
    requires Issuing(Next(s, users, step), h) && !Issuing(s, h) && Next(s, users, step).handlers[h].request in s.requests
    ensures users != {}
  {
    assert step.DoDecide? && s.handlers[h].actor.user in users;
  }

  /** Who has a servable session after a step had it before, or was about to be issued it. */
  lemma ServableCameFrom(s: State, users: set<Id>, step: Step, r: Id)
    requires TablesOk(s) && Servable(Next(s, users, step), r)
    ensures Hopeful(s, users, r)
  {
    var n := Next(s, users, step);
    var k :| k in n.sessions && n.sessions[k].request == r && n.sessions[k].active && n.sessions[k].expiresAt > n.now;
    SessionEvolves(s, users, step, k);
    TimeMovesOn(s, users, step);
    if k !in s.sessions {
      IssuingIsHopeful(s, users, step.h);
    }
  }

  lemma TimeMovesOn(s: State, users: set<Id>, step: Step)
    ensures Next(s, users, step).now >= s.now
  {
  }

  lemma IssuingIsHopeful(s: State, users: set<Id>, h: Id)
    requires TicketsOk(s) && Issuing(s, h)
    ensures Hopeful(s, users, s.handlers[h].request)
  {
    assert TicketOk(s, s.handlers[h]);
  }

  lemma NotIssuedLater(s: State, users: set<Id>, step: Step, r: Id)
    requires TablesOk(s) && !MayBeIssued(s, users, r)
    ensures !MayBeIssued(Next(s, users, step), users, r)
  {
    var n := Next(s, users, step);
    RequestsEvolve(s, users, step, r);
    forall h | Issuing(n, h) ensures n.handlers[h].request != r {
      if Issuing(s, h) {
        OldTicket(s, users, step, h);
      } else if n.handlers[h].request == r {
        NewTicket(s, users, step, h);
        NewTicketNeedsUser(s, users, step, h);
      }
    }
  }

  lemma HopelessStep(s: State, users: set<Id>, step: Step, r: Id)
    requires TablesOk(s) && !Hopeful(s, users, r)
    ensures !Hopeful(Next(s, users, step), users, r) && TimesServed(Next(s, users, step).log, r) == TimesServed(s.log, r)
  {
    ServingCounts(s, users, step, r);
    if Servable(Next(s, users, step), r) {
      ServableCameFrom(s, users, step, r);
    }
    if NoSession(s, r) {
      NotIssuedLater(s, users, step, r);
    } else {
      SessionsStay(s, users, step, r);
    }
  }

  lemma {:induction false} HopelessIsNeverServed(s: State, users: set<Id>, steps: seq<Step>, r: Id)
    requires TablesOk(s) && !Hopeful(s, users, r)
    ensures !Hopeful(Run(s, users, steps), users, r) && TimesServed(Run(s, users, steps).log, r) == TimesServed(s.log, r)
  {
    if steps != [] {
      var before := steps[..|steps| - 1];
      HopelessIsNeverServed(s, users, before, r);
      RunKeepsTables(s, users, before);
      HopelessStep(Run(s, users, before), users, steps[|steps| - 1], r);
    }
  }

  ghost predicate ServedLater(s: State, users: set<Id>, r: Id) {
    exists steps :: TimesServed(Run(s, users, steps).log, r) > TimesServed(s.log, r)
  }

  lemma {:induction false} RunAfter(s: State, users: set<Id>, first: Step, steps: seq<Step>)
    ensures Run(s, users, [first] + steps) == Run(Next(s, users, first), users, steps)
  {
    if steps == [] {
      assert [first] + [] == [first] && [first][..0] == [];
    } else {
      RunAfter(s, users, first, steps[..|steps| - 1]);
      assert ([first] + steps)[..|steps|] == [first] + steps[..|steps| - 1];
    }
  }

  lemma OneStepEarlier(s: State, users: set<Id>, step: Step, r: Id)
    requires ServedLater(Next(s, users, step), users, r)
    ensures ServedLater(s, users, r)
  {
    var steps :| TimesServed(Run(Next(s, users, step), users, steps).log, r) > TimesServed(Next(s, users, step).log, r);
    RunAfter(s, users, step, steps);
    ServingCounts(s, users, step, r);
    assert TimesServed(Run(s, users, [step] + steps).log, r) > TimesServed(s.log, r);
  }

  lemma {:induction false} UnusedId<T>(m: map<Id, T>) returns (id: Id)
    ensures id !in m
    decreases |m|
  {
    if k :| k in m {
      id := Above(m.Keys);
    } else {
      id := 0;
    }
  }

  lemma {:induction false} Above(s: set<Id>) returns (id: Id)
    ensures forall k :: k in s ==> k < id
    decreases |s|
  {
    if k :| k in s {
      var above := Above(s - {k});
      id := if above > k then above else k + 1;
      forall j | j in s ensures j < id {
        assert j == k || j in s - {k};
      }
    } else {
      id := 0;
    }
  }

  lemma ServableIsServed(s: State, users: set<Id>, r: Id)
    requires r in s.requests && Servable(s, r)
    ensures ServedLater(s, users, r)
  {
    var h := UnusedId(s.handlers);
    ServingCounts(s, users, Get(h, r), r);
    RunOneMore(s, users, [], Get(h, r));
    assert [] + [Get(h, r)] == [Get(h, r)];
    assert TimesServed(Run(s, users, [Get(h, r)]).log, r) > TimesServed(s.log, r);
  }

  lemma IssuedIsServed(s: State, users: set<Id>, h: Id, r: Id)
    requires Issuing(s, h) && s.handlers[h].request == r && r in s.requests && s.handlers[h].duration >= 1
    ensures ServedLater(s, users, r)
  {
    var k := UnusedId(s.sessions);
    var n := Next(s, users, DoIssue(h, k));
    assert k in n.sessions && n.sessions[k].request == r && n.sessions[k].active && n.sessions[k].expiresAt > n.now;
    ServableIsServed(n, users, r);
    OneStepEarlier(s, users, DoIssue(h, k), r);
  }

  lemma PendingIsServed(s: State, users: set<Id>, r: Id)
    requires r in s.requests && s.requests[r].status == Pending && s.requests[r].duration >= 1 && users != {}
    ensures ServedLater(s, users, r)
  {
    var u :| u in users;
    var h := UnusedId(s.handlers);
    var m := Next(s, users, StartDecision(h, r, true, User(u)));
    var n := Next(m, users, DoDecide(h));
    assert n.handlers[h] == Issue(r, s.requests[r].duration);
    IssuedIsServed(n, users, h, r);
    OneStepEarlier(m, users, DoDecide(h), r);
    OneStepEarlier(s, users, StartDecision(h, r, true, User(u)), r);
  }

  lemma NewIsServed(s: State, users: set<Id>, r: Id)
    requires r !in s.requests
    ensures ServedLater(s, users, r)
  {
    var h := UnusedId(s.handlers);
    var policy := DefaultsForTier(Low);
    DefaultsAreCanonical(Low);
    var n := Next(s, users, Create(h, r, policy, 1));
    assert n.handlers[h] == Issue(r, 1) && r in n.requests;
    IssuedIsServed(n, users, h, r);
    OneStepEarlier(s, users, Create(h, r, policy, 1), r);
  }

  /**
   From any sound state some run serves r's value if and only if its session is active and has
   not run out, or it has none and is about to be issued one, may be decided, or may yet be created.
   */
  lemma ServedLaterIff(s: State, users: set<Id>, r: Id)
    requires TablesOk(s)
    ensures ServedLater(s, users, r) <==> Hopeful(s, users, r)
  {
    if ServedLater(s, users, r) {
      var steps :| TimesServed(Run(s, users, steps).log, r) > TimesServed(s.log, r);
      if !Hopeful(s, users, r) {
        HopelessIsNeverServed(s, users, steps, r);
      }
    }
    if Servable(s, r) {
      var k :| k in s.sessions && s.sessions[k].request == r && s.sessions[k].active && s.sessions[k].expiresAt > s.now;
      assert SessionOk(s, s.sessions[k]);
      ServableIsServed(s, users, r);
    } else if Hopeful(s, users, r) {
      if r !in s.requests {
        NewIsServed(s, users, r);
      } else if h :| Issuing(s, h) && s.handlers[h].request == r {
        assert TicketOk(s, s.handlers[h]);
        IssuedIsServed(s, users, h, r);
      } else {
        PendingIsServed(s, users, r);
      }
    }
  }

  /** A handler that crashes between deciding and issuing leaves an approved request whose value is never served, whatever runs later. */
  lemma CrashedApprovalIsNeverServed(s: State, users: set<Id>, h: Id)
    requires TablesOk(s) && Issuing(s, h)
    ensures var n := Next(s, users, Crash(h)); var r := s.handlers[h].request;
      r in n.requests && n.requests[r].status == Approved && !ServedLater(n, users, r)
  {
    var n, r := Next(s, users, Crash(h)), s.handlers[h].request;
    assert TicketOk(s, s.handlers[h]);
    RunOneMore(s, users, [], Crash(h));
    RunKeepsTables(s, users, [] + [Crash(h)]);
    ServedLaterIff(n, users, r);
  }

  // ---- What single statements do --------------------------------------------------------

  /** A new request has the duration it asked for, within its policy's maximum, and starts out approved, with its session to be issued, exactly when its policy allows that. */
  lemma CreationGrants(s: State, users: set<Id>, h: Id, r: Id, policy: Params, asked: int)
    requires r !in s.requests && h !in s.handlers && Canonical(policy)
    ensures var n := Next(s, users, Create(h, r, policy, asked));
      var duration := if 1 <= asked <= policy.maxDuration then asked else policy.maxDuration;
      var approved := policy.allowAutoApprove && !policy.requireApproval;
      && n.requests == s.requests[r := Request(if approved then Approved else Pending, duration, policy)]
      && n.handlers == (if approved then s.handlers[h := Issue(r, duration)] else s.handlers)
      && n.sessions == s.sessions && n.tokens == s.tokens && n.log == s.log && n.now == s.now
  {
  }

  /** An issued session serves from now until its duration has passed, and no longer. */
  lemma SessionRunsOut(s: State, users: set<Id>, h: Id, k: Id, seconds: nat)
    requires TablesOk(s) && Issuing(s, h) && k !in s.sessions
    ensures var r := s.handlers[h].request;
      var n := Next(Next(s, users, DoIssue(h, k)), users, Tick(seconds));
      Servable(n, r) <==> seconds < 60 * s.requests[r].duration
  {
    assert TicketOk(s, s.handlers[h]);
    var n := Next(Next(s, users, DoIssue(h, k)), users, Tick(seconds));
    assert n.sessions[k].request == s.handlers[h].request;
  }

  /** Serving a credential that may be used again counts the use and leaves nothing else to do; serving a single-use one leaves its revocation. */
  lemma ServingLeaves(s: State, users: set<Id>, h: Id, r: Id)
    requires h !in s.handlers && r in s.requests && Servable(s, r)
    ensures var n := Next(s, users, Get(h, r));
      && n.handlers == (if s.requests[r].policy.singleUse then s.handlers[h := RevokeSession(r)] else s.handlers)
      && n.requests == s.requests && n.tokens == s.tokens && n.now == s.now && n.sessions.Keys == s.sessions.Keys
      && forall k :: k in s.sessions ==>
           n.sessions[k] == s.sessions[k].(usage := s.sessions[k].usage +
             if s.sessions[k].request == r && s.sessions[k].active && s.sessions[k].expiresAt > s.now then 1 else 0)
  {
  }

  /** A new token can be redeemed once, until its time has passed; redeemed for another action it is used up all the same, and decides nothing. */
  lemma TokenWorksOnce(s: State, users: set<Id>, t: Id, h: Id, r: Id, approve: bool, asked: bool, ttl: int, seconds: nat)
    requires t !in s.tokens && r in s.requests && h !in s.handlers
    ensures var later := Next(Next(s, users, NewToken(t, r, approve, ttl)), users, Tick(seconds));
      var n := Next(later, users, Redeem(h, t, asked));
      if seconds < ttl then
        && n.tokens[t].used && n.log == s.log + [Consumed(t)]
        && n.handlers == (if asked == approve then s.handlers[h := Decide(r, approve, EmailLink)] else s.handlers)
        && Next(n.(handlers := s.handlers), users, Redeem(h, t, asked)) == n.(handlers := s.handlers)
      else n == later
  {
  }

  // ---- Handlers run on their own -------------------------------------------------------

  lemma CountedStaysActive(s: State, r: Id)
    requires Servable(s, r)
    ensures forall n: State :: n.sessions == Counted(s, r) ==> HasActive(n, r)
  {
    var k :| k in s.sessions && s.sessions[k].request == r && s.sessions[k].active && s.sessions[k].expiresAt > s.now;
    assert k in Counted(s, r) && Counted(s, r)[k].request == r && Counted(s, r)[k].active;
  }

  /** What an undisturbed revocation leaves. */
  function Ended(s: State, r: Id): State {
    if !HasActive(s, r) then s
    else s.(sessions := Deactivated(s, r), log := s.log + [SessionRevoked(r)],
            requests := if r in s.requests && s.requests[r].status == Approved then s.requests[r := s.requests[r].(status := Revoked)] else s.requests)
  }

  lemma RevocationIsThreeSteps(s: State, users: set<Id>, r: Id)
    requires s.handlers == map[]
    ensures Run(s, users, [StartRevoke(0, r), DoRevokeSession(0), DoMarkRevoked(0)]) == Ended(s, r)
  {
    ThreeSteps(s, users, StartRevoke(0, r), DoRevokeSession(0), DoMarkRevoked(0));
    assert map[0 := RevokeSession(r)] - {0} == map[] && map[0 := MarkRevoked(r)] - {0} == map[];
  }

  /** What an undisturbed delivery of a single-use credential leaves: the three steps of its handler, in one. */
  function Delivered(s: State, r: Id): State
    requires r in s.requests
  {
    s.(sessions := Deactivated(s.(sessions := Counted(s, r)), r),
       requests := if s.requests[r].status == Approved then s.requests[r := s.requests[r].(status := Revoked)] else s.requests,
       log := s.log + [Served(r, s.now)] + [SessionRevoked(r)])
  }

  lemma DeliveryIsThreeSteps(s: State, users: set<Id>, h: Id, r: Id)
    requires s.handlers == map[] && r in s.requests && Servable(s, r) && s.requests[r].policy.singleUse
    ensures Run(s, users, [Get(h, r), DoRevokeSession(h), DoMarkRevoked(h)]) == Delivered(s, r)
  {
    ThreeSteps(s, users, Get(h, r), DoRevokeSession(h), DoMarkRevoked(h));
    var got := Next(s, users, Get(h, r));
    CountedStaysActive(s, r);
    assert got.handlers == map[h := RevokeSession(r)] && HasActive(got, r);
    assert Deactivated(got, r) == Deactivated(s.(sessions := Counted(s, r)), r);
    assert map[h := MarkRevoked(r)] - {h} == map[];
  }

  predicate Decides(s: State, users: set<Id>, r: Id, actor: Actor) {
    actor.User? && actor.user in users && r in s.requests && s.requests[r].status == Pending
  }

  /** What an undisturbed decision leaves, its session aside. */
  function DecidedBy(s: State, users: set<Id>, r: Id, approve: bool, actor: Actor): State {
    if !Decides(s, users, r, actor) then s
    else s.(requests := s.requests[r := s.requests[r].(status := if approve then Approved else Rejected)],
            log := s.log + [Decided(r, approve, actor)])
  }

  /** What it leaves with the session. */
  function Applied(s: State, users: set<Id>, r: Id, approve: bool, actor: Actor, k: Id): State {
    var n := DecidedBy(s, users, r, approve, actor);
    if !Decides(s, users, r, actor) || !approve then n
    else n.(sessions := n.sessions[k := Session(r, true, s.now, s.now + 60 * s.requests[r].duration, 0)])
  }

  /** A started decision, with its ticket. */
  lemma StartedDecision(s: State, users: set<Id>, r: Id, approve: bool, actor: Actor)
    requires s.handlers == map[]
    ensures var n := Next(Next(s, users, StartDecision(0, r, approve, actor)), users, DoDecide(0));
      n == DecidedBy(s, users, r, approve, actor).(handlers :=
        if Decides(s, users, r, actor) && approve then map[0 := Issue(r, s.requests[r].duration)] else map[])
  {
    var m := Next(s, users, StartDecision(0, r, approve, actor));
    assert m.handlers == map[0 := Decide(r, approve, actor)];
    assert m.handlers - {0} == map[];
  }

  lemma DecisionIsThreeSteps(s: State, users: set<Id>, r: Id, approve: bool, actor: Actor)
    requires s.handlers == map[]
    ensures Run(s, users, [StartDecision(0, r, approve, actor), DoDecide(0), Crash(0)]) == DecidedBy(s, users, r, approve, actor)
  {
    ThreeSteps(s, users, StartDecision(0, r, approve, actor), DoDecide(0), Crash(0));
    StartedDecision(s, users, r, approve, actor);
    var n := Next(Next(s, users, StartDecision(0, r, approve, actor)), users, DoDecide(0));
    assert n.handlers - {0} == map[];
  }

  lemma ApprovalIsThreeSteps(s: State, users: set<Id>, r: Id, approve: bool, actor: Actor, k: Id)
    requires s.handlers == map[] && k !in s.sessions
    ensures Run(s, users, [StartDecision(0, r, approve, actor), DoDecide(0), DoIssue(0, k)]) == Applied(s, users, r, approve, actor, k)
  {
    ThreeSteps(s, users, StartDecision(0, r, approve, actor), DoDecide(0), DoIssue(0, k));
    StartedDecision(s, users, r, approve, actor);
    var n := Next(Next(s, users, StartDecision(0, r, approve, actor)), users, DoDecide(0));
    assert Decides(s, users, r, actor) && approve ==> n.handlers - {0} == map[];
  }

  lemma RunMayKeepTables(s: State, users: set<Id>, steps: seq<Step>)
    ensures TablesOk(s) ==> TablesOk(Run(s, users, steps))
  {
    if TablesOk(s) {
      RunKeepsTables(s, users, steps);
    }
  }

  /** The tables, with the handlers' statements as methods; the log is kept to compare with runs. */
  class WorkflowStore {
    const users: set<Id>
    var now: int
    var requests: map<Id, Request>
    var sessions: map<Id, Session>
    var tokens: map<Id, Token>
    ghost var log: seq<Event>

    constructor (users: set<Id>)
      ensures this.users == users && Tables() == EMPTY
    {
      this.users := users;
      now, requests, sessions, tokens, log := 0, map[], map[], map[], [];
    }

    /** No handler is under way. */
    ghost function Tables(): State
      reads this
    {
      State(now, requests, sessions, tokens, map[], log)
    }

    /** UPDATE ... WHERE status = 'pending'; Reject differs in the status only. */
    method Decide(r: Id, approve: bool, actor: Actor) returns (row: Option<Request>)
      modifies `requests, `log
      ensures row.Some? <==> actor.User? && actor.user in users && r in old(requests) && old(requests)[r].status == Pending
      ensures row.Some? ==> row.value == old(requests)[r].(status := if approve then Approved else Rejected)
      ensures requests == if row.Some? then old(requests)[r := row.value] else old(requests)
      ensures log == if row.Some? then old(log) + [Decided(r, approve, actor)] else old(log)
      ensures Tables() == Run(old(Tables()), users, [StartDecision(0, r, approve, actor), DoDecide(0), Crash(0)])
      ensures old(TablesOk(Tables())) ==> TablesOk(Tables())
    {
      DecisionIsThreeSteps(Tables(), users, r, approve, actor);
      RunMayKeepTables(Tables(), users, [StartDecision(0, r, approve, actor), DoDecide(0), Crash(0)]);
      if !actor.User? || actor.user !in users || r !in requests || requests[r].status != Pending {
        return None;
      }
      row := Some(requests[r].(status := if approve then Approved else Rejected));
      requests := requests[r := row.value];
      log := log + [Decided(r, approve, actor)];
    }

    method IssueCredential(k: Id, r: Id, duration: int)
      requires k !in sessions
      modifies `sessions
      ensures sessions == old(sessions)[k := Session(r, true, now, now + 60 * duration, 0)]
    {
      sessions := sessions[k := Session(r, true, now, now + 60 * duration, 0)];
    }

    method Consume(t: Id) returns (token: Option<Token>)
      modifies `tokens, `log
      ensures token.Some? <==> t in old(tokens) && !old(tokens)[t].used && old(tokens)[t].expiresAt > now
      ensures token.Some? ==> token.value == old(tokens)[t] && log == old(log) + [Consumed(t)]
      ensures token.Some? ==> tokens == old(tokens)[t := token.value.(used := true)]
      ensures token.None? ==> tokens == old(tokens) && log == old(log)
      ensures Tables() == Run(old(Tables()), users, [Redeem(0, t, true), Crash(0)])
      ensures old(TablesOk(Tables())) ==> TablesOk(Tables())
    {
      TwoSteps(Tables(), users, Redeem(0, t, true), Crash(0));
      RunMayKeepTables(Tables(), users, [Redeem(0, t, true), Crash(0)]);
      if t !in tokens || tokens[t].used || tokens[t].expiresAt <= now {
        return None;
      }
      token := Some(tokens[t]);
      tokens := tokens[t := tokens[t].(used := true)];
      log := log + [Consumed(t)];
    }

    /** A decision and, if it approves, the session: the endpoints, links and chat buttons differ in the actor. */
    method Apply(r: Id, approve: bool, actor: Actor, k: Id) returns (applied: bool)
      requires k !in sessions
      modifies `requests, `sessions, `log
      ensures applied <==> actor.User? && actor.user in users && r in old(requests) && old(requests)[r].status == Pending
      ensures !applied ==> requests == old(requests) && sessions == old(sessions) && log == old(log)
      ensures applied ==> log == old(log) + [Decided(r, approve, actor)]
      ensures applied ==> requests == old(requests)[r := old(requests)[r].(status := if approve then Approved else Rejected)]
      ensures applied && approve ==> sessions == old(sessions)[k := Session(r, true, now, now + 60 * old(requests)[r].duration, 0)]
      ensures applied && !approve ==> sessions == old(sessions)
      ensures Tables() == Run(old(Tables()), users, [StartDecision(0, r, approve, actor), DoDecide(0), DoIssue(0, k)])
      ensures old(TablesOk(Tables())) ==> TablesOk(Tables())
    {
      ApprovalIsThreeSteps(Tables(), users, r, approve, actor, k);
      RunMayKeepTables(Tables(), users, [StartDecision(0, r, approve, actor), DoDecide(0), DoIssue(0, k)]);
      var row := Decide(r, approve, actor);
      applied := row.Some?;
      if applied && approve {
        IssueCredential(k, r, row.value.duration);
      }
    }

    /** The public link endpoint: whatever the token, requests and sessions stay as they are. */
    method RedeemActionToken(t: Id, approve: bool, k: Id) returns (applied: bool)
      requires k !in sessions
      modifies this
      ensures !applied && requests == old(requests) && sessions == old(sessions)
      ensures tokens == if t in old(tokens) && !old(tokens)[t].used && old(tokens)[t].expiresAt > now
                        then old(tokens)[t := old(tokens)[t].(used := true)] else old(tokens)
    {
      var token := Consume(t);
      if token.None? || token.value.approve != approve {
        return false;
      }
      applied := Apply(token.value.request, approve, EmailLink, k);
    }

    method RevokeCredential(r: Id) returns (ok: bool)
      modifies `sessions, `requests, `log
      ensures ok == HasActive(old(Tables()), r)
      ensures Tables() == Ended(old(Tables()), r)
      ensures Tables() == Run(old(Tables()), users, [StartRevoke(0, r), DoRevokeSession(0), DoMarkRevoked(0)])
      ensures old(TablesOk(Tables())) ==> TablesOk(Tables())
    {
      RevocationIsThreeSteps(Tables(), users, r);
      RunMayKeepTables(Tables(), users, [StartRevoke(0, r), DoRevokeSession(0), DoMarkRevoked(0)]);
      ok := exists k :: k in sessions && sessions[k].request == r && sessions[k].active;
      if !ok {
        return;
      }
      sessions := map k | k in sessions :: if sessions[k].request == r then sessions[k].(active := false) else sessions[k];
      log := log + [SessionRevoked(r)];
      if r in requests && requests[r].status == Approved {
        requests := requests[r := requests[r].(status := Revoked)];
      }
    }

    /** UPDATE ... SET usage_count = usage_count + 1 ... RETURNING */
    method GetCredential(r: Id) returns (served: bool)
      modifies `sessions, `log
      ensures served == Servable(old(Tables()), r)
      ensures sessions == if served then Counted(old(Tables()), r) else old(sessions)
      ensures log == if served then old(log) + [Served(r, now)] else old(log)
      ensures r in requests ==> Tables() == Run(old(Tables()), users, [Get(0, r), Crash(0)])
      ensures r in requests && old(TablesOk(Tables())) ==> TablesOk(Tables())
    {
      TwoSteps(Tables(), users, Get(0, r), Crash(0));
      RunMayKeepTables(Tables(), users, [Get(0, r), Crash(0)]);
      served := exists k :: k in sessions && sessions[k].request == r && sessions[k].active && sessions[k].expiresAt > now;
      if served {
        sessions := map k | k in sessions :: var c := sessions[k];
          if c.request == r && c.active && c.expiresAt > now then c.(usage := c.usage + 1) else c;
        log := log + [Served(r, now)];
      }
    }

    /** The credential endpoint: one use more, and a single-use credential ends with it. */
    method Deliver(r: Id) returns (served: bool)
      requires r in requests
      modifies `sessions, `requests, `log
      ensures served == Servable(old(Tables()), r)
      ensures !served ==> Tables() == old(Tables())
      ensures served && old(requests)[r].policy.singleUse ==> Tables() == Delivered(old(Tables()), r)
      ensures served && !old(requests)[r].policy.singleUse ==>
        sessions == Counted(old(Tables()), r) && requests == old(requests) && log == old(log) + [Served(r, now)]
    {
      served := GetCredential(r);
      if served && requests[r].policy.singleUse {
        CountedStaysActive(old(Tables()), r);
        var revoked := RevokeCredential(r);
      }
    }
  }
}
