/**
 The policy snapshot that every access request carries. Requests are created while
 templates, versions, bindings, custom policies and secrets go on changing; reading the
 secret, resolving the policy and inserting the row are separate statements.
 */
module RequestSnapshots {
  import opened Base
  import opened PolicyParameters
  import opened PolicyOverride
  import opened PolicyTemplates
  import CustomPolicy

  // ---- Tables and handlers ------------------------------------------------------------

  /** What a call to CreateRequest enforces, and where it came from. */
  datatype Enforced = Enforced(params: Params, template: Option<(Id, int)>, warnings: seq<PolicyParameters.Key>, source: Source)

  /** failed: the query itself failed. */
  function Enforce(v2: bool, db: Db, secret: Id, credentialType: string, failed: bool): Enforced {
    var fallback := Enforced(DefaultParameters(credentialType), None, [], FromDefault);
    if !v2 || failed then fallback
    else match ResolveRuntimePolicy(db, secret)
      case Err(_) => fallback
      case Ok(p) => Enforced(p.policy, p.template, p.warnings, p.source)
  }

  /** A row of access_requests, approved from the start or not; enforced is what the call that made it enforced. */
  datatype Request = Request(secret: Id, credentialType: string, snapshot: Object, template: Option<(Id, int)>,
                             approved: bool, enforced: Enforced)

  /** A handler that has read the secret, and one that has resolved the policy and will insert the row. */
  datatype Pending = Read(secret: Id, credentialType: string) | Ready(secret: Id, credentialType: string, enforced: Enforced)

  /** The policy tables, the policy_config columns of secrets and projects, and the requests. */
  datatype World = World(policy: Sys, configs: map<Id, CustomPolicy.Layer>, projectConfigs: map<Id, CustomPolicy.Layer>,
                         pending: map<Id, Pending>, requests: map<Id, Request>)

  datatype Action =
    | PolicyStep(step: PolicyTemplates.Step)
    | SetConfig(secret: Id, layer: CustomPolicy.Layer)
    | SetProjectConfig(project: Id, layer: CustomPolicy.Layer)
    | Fetch(h: Id, secret: Id)
    | Resolve(h: Id, failed: bool)
    | Insert(h: Id, r: Id)
    | Crash(h: Id)

  predicate Live(db: Db, secret: Id) {
    secret in db.secrets && !db.secrets[secret].deleted
  }

  /** ON DELETE SET NULL: a request forgets a template that is gone. */
  function Forgotten(requests: map<Id, Request>, db: Db): map<Id, Request> {
    map r | r in requests ::
      if requests[r].template.Some? && requests[r].template.value.0 !in db.templates then requests[r].(template := None) else requests[r]
  }

  function OnFetch(w: World, h: Id, secret: Id): World {
    if h in w.pending || !Live(w.policy.db, secret) then w
    else w.(pending := w.pending[h := Read(secret, w.policy.db.secrets[secret].credentialType)])
  }

  function OnResolve(v2: bool, w: World, h: Id, failed: bool): World {
    if h !in w.pending || !w.pending[h].Read? then w
    else
      var p := w.pending[h];
      w.(pending := w.pending[h := Ready(p.secret, p.credentialType, Enforce(v2, w.policy.db, p.secret, p.credentialType, failed))])
  }

  function OnInsert(w: World, h: Id, r: Id): World {
    if h !in w.pending || !w.pending[h].Ready? || r in w.requests then w
    else
      var p := w.pending[h];
      var t := p.enforced.template;
      if t.Some? && !HasVersion(w.policy.db, t.value.0, t.value.1) then w.(pending := w.pending - {h})
      else
        var row := Request(p.secret, p.credentialType, Encode(p.enforced.params), t, CustomPolicy.AutoApproved(p.enforced.params), p.enforced);
        w.(requests := w.requests[r := row], pending := w.pending - {h})
  }

  function Act(v2: bool, lower: string -> string, w: World, action: Action): World {
    match action
    case PolicyStep(step) =>
      var policy := PolicyTemplates.Next(w.policy, lower, step);
      w.(policy := policy, requests := Forgotten(w.requests, policy.db))
    case SetConfig(secret, layer) =>
      if Live(w.policy.db, secret) then w.(configs := w.configs[secret := layer]) else w
    case SetProjectConfig(project, layer) => w.(projectConfigs := w.projectConfigs[project := layer])
    case Fetch(h, secret) => OnFetch(w, h, secret)
    case Resolve(h, failed) => OnResolve(v2, w, h, failed)
    case Insert(h, r) => OnInsert(w, h, r)
    case Crash(h) => w.(pending := w.pending - {h})
  }

  const START := World(PolicyTemplates.EMPTY, map[], map[], map[], map[])

  function History(v2: bool, lower: string -> string, actions: seq<Action>): World {
    if actions == [] then START
    else Act(v2, lower, History(v2, lower, actions[..|actions| - 1]), actions[|actions| - 1])
  }

  // ---- Snapshots are what was enforced ----------------------------------------------

  ghost predicate SnapshotsOk(w: World) {
    && Inv(w.policy)
    && (forall h :: h in w.pending && w.pending[h].Ready? ==> Canonical(w.pending[h].enforced.params))
    && (forall r :: r in w.requests ==> Faithful(w.requests[r]))
  }

  predicate Faithful(row: Request) {
    && Canonical(row.enforced.params) && row.snapshot == Encode(row.enforced.params)
    && row.approved == CustomPolicy.AutoApproved(row.enforced.params)
  }

  /** Whatever state the policy tables are in, what is enforced is canonical. */
  lemma EnforcedIsCanonical(v2: bool, db: Db, secret: Id, credentialType: string, failed: bool)
    requires VersionsOk(db) && BindingsOk(db)
    ensures Canonical(Enforce(v2, db, secret, credentialType, failed).params)
  {
    DefaultsAreCanonical(DeriveRiskTier(credentialType));
    if Live(db, secret) {
      ReadsAgree(db, secret);
    }
  }

  lemma ActKeepsSnapshots(v2: bool, lower: string -> string, w: World, action: Action)
    requires SnapshotsOk(w)
    ensures SnapshotsOk(Act(v2, lower, w, action))
  {
    match action
    case PolicyStep(step) =>
      NextKeepsInv(w.policy, lower, step);
    case Resolve(h, failed) =>
      if h in w.pending {
        EnforcedIsCanonical(v2, w.policy.db, w.pending[h].secret, w.pending[h].credentialType, failed);
      }
    case _ =>
  }

  lemma {:induction false} HistoryKeepsSnapshots(v2: bool, lower: string -> string, actions: seq<Action>)
    ensures SnapshotsOk(History(v2, lower, actions))
  {
    if actions != [] {
      HistoryKeepsSnapshots(v2, lower, actions[..|actions| - 1]);
      ActKeepsSnapshots(v2, lower, History(v2, lower, actions[..|actions| - 1]), actions[|actions| - 1]);
    }
  }

  // ---- ... for the request's own secret ---------------------------------------------

  /** The type is that of the secret's row. */
  predicate TypeOf(db: Db, secret: Id, credentialType: string) {
    secret in db.secrets && db.secrets[secret].credentialType == credentialType
  }

  ghost predicate TypesOk(w: World) {
    && (forall h :: h in w.pending ==> TypeOf(w.policy.db, w.pending[h].secret, w.pending[h].credentialType))
    && (forall r :: r in w.requests ==> TypeOf(w.policy.db, w.requests[r].secret, w.requests[r].credentialType))
  }

  /** No statement on the policy tables changes a secret's type. */
  lemma TypeStays(s: Sys, lower: string -> string, step: PolicyTemplates.Step, secret: Id, credentialType: string)
    requires TypeOf(s.db, secret, credentialType)
    ensures TypeOf(PolicyTemplates.Next(s, lower, step).db, secret, credentialType)
  {
  }

  lemma ActKeepsTypes(v2: bool, lower: string -> string, w: World, action: Action)
    requires TypesOk(w)
    ensures TypesOk(Act(v2, lower, w, action))
  {
    if action.PolicyStep? {
      forall h | h in w.pending
        ensures TypeOf(PolicyTemplates.Next(w.policy, lower, action.step).db, w.pending[h].secret, w.pending[h].credentialType)
      {
        TypeStays(w.policy, lower, action.step, w.pending[h].secret, w.pending[h].credentialType);
      }
      forall r | r in w.requests
        ensures TypeOf(PolicyTemplates.Next(w.policy, lower, action.step).db, w.requests[r].secret, w.requests[r].credentialType)
      {
        TypeStays(w.policy, lower, action.step, w.requests[r].secret, w.requests[r].credentialType);
      }
    }
  }

  lemma {:induction false} HistoryKeepsTypes(v2: bool, lower: string -> string, actions: seq<Action>)
    ensures TypesOk(History(v2, lower, actions))
  {
    if actions != [] {
      HistoryKeepsTypes(v2, lower, actions[..|actions| - 1]);
      ActKeepsTypes(v2, lower, History(v2, lower, actions[..|actions| - 1]), actions[|actions| - 1]);
    }
  }

  // ---- Where it came from -----------------------------------------------------------

  /**
   What the tables say a request is to meet: the version its secret is bound to with the
   binding's override merged in and its warnings, or the default of the secret's type when
   there is no binding to read.
   */
  ghost predicate ComesFromTables(v2: bool, db: Db, secret: Id, credentialType: string, failed: bool, e: Enforced) {
    if v2 && !failed && secret in db.secrets && !db.secrets[secret].deleted && secret in db.bindings then
      var b := db.bindings[secret];
      && b.template in db.versions && b.version in db.versions[b.template]
      && var r := ResolveEffectivePolicy(db.versions[b.template][b.version], b.override);
      && r.Ok? && e.params == r.value.params
      && e.template == Some((b.template, b.version))
      && e.warnings == r.value.warnings == b.warnings
      && e.source == (if b.override == map[] then FromTemplate else FromOverride)
    else
      && e.template == None && e.warnings == [] && e.source == FromDefault
      && e.params == DefaultParameters(credentialType)
  }

  lemma EnforcedComesFromTables(v2: bool, db: Db, secret: Id, credentialType: string, failed: bool)
    requires VersionsOk(db) && BindingsOk(db) && TypeOf(db, secret, credentialType)
    ensures ComesFromTables(v2, db, secret, credentialType, failed, Enforce(v2, db, secret, credentialType, failed))
  {
    if Live(db, secret) && secret in db.bindings {
      var b := db.bindings[secret];
      assert BindingOk(db, secret, b);
      CanonicalDecodes(db.versions[b.template][b.version]);
    }
  }

  /** Action n resolved the policy of this secret, over the tables as they then were. */
  ghost predicate ResolvedAt(v2: bool, lower: string -> string, actions: seq<Action>, n: nat, secret: Id, credentialType: string, enforced: Enforced)
    requires n < |actions|
  {
    var a, w := actions[n], History(v2, lower, actions[..n]);
    && a.Resolve? && a.h in w.pending && w.pending[a.h] == Read(secret, credentialType)
    && ComesFromTables(v2, w.policy.db, secret, credentialType, a.failed, enforced)
  }

  ghost predicate Resolved(v2: bool, lower: string -> string, actions: seq<Action>, secret: Id, credentialType: string, enforced: Enforced) {
    exists n :: 0 <= n < |actions| && ResolvedAt(v2, lower, actions, n, secret, credentialType, enforced)
  }

  lemma ResolvedLater(v2: bool, lower: string -> string, actions: seq<Action>, secret: Id, credentialType: string, enforced: Enforced)
    requires actions != [] && Resolved(v2, lower, actions[..|actions| - 1], secret, credentialType, enforced)
    ensures Resolved(v2, lower, actions, secret, credentialType, enforced)
  {
    var before := actions[..|actions| - 1];
    var n :| 0 <= n < |before| && ResolvedAt(v2, lower, before, n, secret, credentialType, enforced);
    assert before[..n] == actions[..n];
    assert ResolvedAt(v2, lower, actions, n, secret, credentialType, enforced);
  }

  lemma ReadyCameFrom(v2: bool, lower: string -> string, w: World, action: Action, h: Id)
    requires h in Act(v2, lower, w, action).pending && Act(v2, lower, w, action).pending[h].Ready?
    ensures var p := Act(v2, lower, w, action).pending[h];
      (h in w.pending && w.pending[h] == p)
      || (action.Resolve? && action.h == h && h in w.pending && w.pending[h] == Read(p.secret, p.credentialType)
          && p.enforced == Enforce(v2, w.policy.db, p.secret, p.credentialType, action.failed))
  {
  }

  lemma RequestCameFrom(v2: bool, lower: string -> string, w: World, action: Action, r: Id)
    requires r in Act(v2, lower, w, action).requests
    ensures var row := Act(v2, lower, w, action).requests[r];
      (r in w.requests && SamePolicy(w.requests[r], row))
      || (action.Insert? && action.h in w.pending && w.pending[action.h] == Ready(row.secret, row.credentialType, row.enforced))
  {
  }

  predicate SamePolicy(a: Request, b: Request) {
    a == b.(template := a.template)
  }

  lemma RequestStays(v2: bool, lower: string -> string, w: World, action: Action, r: Id)
    requires r in w.requests
    ensures r in Act(v2, lower, w, action).requests && SamePolicy(w.requests[r], Act(v2, lower, w, action).requests[r])
  {
  }

  lemma {:induction false} ReadyWasResolved(v2: bool, lower: string -> string, actions: seq<Action>, h: Id)
    requires h in History(v2, lower, actions).pending && History(v2, lower, actions).pending[h].Ready?
    ensures var p := History(v2, lower, actions).pending[h]; Resolved(v2, lower, actions, p.secret, p.credentialType, p.enforced)
  {
    var before, last := actions[..|actions| - 1], actions[|actions| - 1];
    var b, p := History(v2, lower, before), History(v2, lower, actions).pending[h];
    ReadyCameFrom(v2, lower, b, last, h);
    if h in b.pending && b.pending[h] == p {
      ReadyWasResolved(v2, lower, before, h);
      ResolvedLater(v2, lower, actions, p.secret, p.credentialType, p.enforced);
    } else {
      HistoryKeepsSnapshots(v2, lower, before);
      HistoryKeepsTypes(v2, lower, before);
      EnforcedComesFromTables(v2, b.policy.db, p.secret, p.credentialType, last.failed);
      assert ResolvedAt(v2, lower, actions, |actions| - 1, p.secret, p.credentialType, p.enforced);
    }
  }

  lemma {:induction false} RequestWasResolved(v2: bool, lower: string -> string, actions: seq<Action>, r: Id)
    requires r in History(v2, lower, actions).requests
    ensures var row := History(v2, lower, actions).requests[r]; Resolved(v2, lower, actions, row.secret, row.credentialType, row.enforced)
  {
    var before, last := actions[..|actions| - 1], actions[|actions| - 1];
    var b, row := History(v2, lower, before), History(v2, lower, actions).requests[r];
    RequestCameFrom(v2, lower, b, last, r);
    if r in b.requests && SamePolicy(b.requests[r], row) {
      RequestWasResolved(v2, lower, before, r);
    } else {
      ReadyWasResolved(v2, lower, before, last.h);
    }
    ResolvedLater(v2, lower, actions, row.secret, row.credentialType, row.enforced);
  }

  /**
   In every history, a request carries its secret's type, and its snapshot yields exactly the
   policy that was enforced when it was created: what the tables, as they were when that call
   read them, resolved to for that secret.
   */
  lemma SnapshotIsWhatWasEnforced(v2: bool, lower: string -> string, actions: seq<Action>, r: Id)
    requires r in History(v2, lower, actions).requests
    ensures var w := History(v2, lower, actions); var row := w.requests[r];
      && TypeOf(w.policy.db, row.secret, row.credentialType)
      && EffectivePolicyForRequest(Stored(row.snapshot), row.credentialType) == ToPolicy(row.enforced.params, row.credentialType)
      && Resolved(v2, lower, actions, row.secret, row.credentialType, row.enforced)
  {
    HistoryKeepsSnapshots(v2, lower, actions);
    HistoryKeepsTypes(v2, lower, actions);
    RequestWasResolved(v2, lower, actions, r);
    var row := History(v2, lower, actions).requests[r];
    SnapshotIsFaithful(row.enforced.params, row.credentialType);
  }

  lemma {:induction false} RequestStaysOn(v2: bool, lower: string -> string, actions: seq<Action>, n: nat, r: Id)
    requires n <= |actions| && r in History(v2, lower, actions[..n]).requests
    ensures r in History(v2, lower, actions).requests
    ensures SamePolicy(History(v2, lower, actions[..n]).requests[r], History(v2, lower, actions).requests[r])
  {
    if n == |actions| {
      assert actions[..n] == actions;
    } else {
      var before := actions[..|actions| - 1];
      assert before[..n] == actions[..n];
      RequestStaysOn(v2, lower, before, n, r);
      RequestStays(v2, lower, History(v2, lower, before), actions[|actions| - 1], r);
    }
  }

  /** Whatever happens to templates, versions and bindings afterwards, the request is judged by the policy first enforced. */
  lemma JudgedAlikeLater(v2: bool, lower: string -> string, actions: seq<Action>, n: nat, r: Id)
    requires n <= |actions| && r in History(v2, lower, actions[..n]).requests
    ensures r in History(v2, lower, actions).requests
    ensures var first, now := History(v2, lower, actions[..n]).requests[r], History(v2, lower, actions).requests[r];
      EffectivePolicyForRequest(Stored(now.snapshot), now.credentialType) == ToPolicy(first.enforced.params, first.credentialType)
  {
    RequestStaysOn(v2, lower, actions, n, r);
    SnapshotIsWhatWasEnforced(v2, lower, actions, r);
  }

  /** A handler that crashes inserts nothing, however far it came. */
  lemma CrashedInsertsNothing(v2: bool, lower: string -> string, w: World, h: Id, r: Id)
    ensures var n := Act(v2, lower, w, Crash(h));
      h !in n.pending && n.requests == w.requests && Act(v2, lower, n, Insert(h, r)) == n
  {
  }

  // ---- The template a request names ---------------------------------------------------

  /** The enforced template, as long as it is there. */
  function StillThere(template: Option<(Id, int)>, db: Db): Option<(Id, int)> {
    if template.Some? && template.value.0 in db.templates then template else None
  }

  ghost predicate TemplatesOk(w: World) {
    && (forall h :: h in w.pending && w.pending[h].Ready? && w.pending[h].enforced.template.Some? ==>
          w.pending[h].enforced.template.value.0 in w.policy.used)
    && (forall r :: r in w.requests ==>
          && (w.requests[r].enforced.template.Some? ==> w.requests[r].enforced.template.value.0 in w.policy.used)
          && w.requests[r].template == StillThere(w.requests[r].enforced.template, w.policy.db))
  }

  lemma PolicyKeepsTemplates(v2: bool, lower: string -> string, w: World, step: PolicyTemplates.Step)
    requires TemplatesOk(w)
    ensures TemplatesOk(Act(v2, lower, w, PolicyStep(step)))
  {
    UsedStayGone(w.policy, lower, step);
    var n := Act(v2, lower, w, PolicyStep(step));
    forall r | r in n.requests ensures n.requests[r].template == StillThere(n.requests[r].enforced.template, n.policy.db) {
    }
  }

  lemma EnforcedTemplateIsUsed(v2: bool, s: Sys, secret: Id, credentialType: string, failed: bool)
    requires Inv(s)
    ensures var t := Enforce(v2, s.db, secret, credentialType, failed).template; t.Some? ==> t.value.0 in s.used
  {
  }

  lemma ActKeepsTemplates(v2: bool, lower: string -> string, w: World, action: Action)
    requires Inv(w.policy) && TemplatesOk(w)
    ensures TemplatesOk(Act(v2, lower, w, action))
  {
    match action
    case PolicyStep(step) =>
      PolicyKeepsTemplates(v2, lower, w, step);
    case Resolve(h, failed) =>
      if h in w.pending {
        EnforcedTemplateIsUsed(v2, w.policy, w.pending[h].secret, w.pending[h].credentialType, failed);
      }
    case _ =>
  }

  /** In every history a request names the template it was judged by, until that template is deleted. */
  lemma {:induction false} RequestNamesItsTemplate(v2: bool, lower: string -> string, actions: seq<Action>)
    ensures TemplatesOk(History(v2, lower, actions))
  {
    if actions != [] {
      RequestNamesItsTemplate(v2, lower, actions[..|actions| - 1]);
      HistoryKeepsSnapshots(v2, lower, actions[..|actions| - 1]);
      ActKeepsTemplates(v2, lower, History(v2, lower, actions[..|actions| - 1]), actions[|actions| - 1]);
    }
  }

  // ---- Custom policies are not enforced ------------------------------------------------

  /** The custom-policy layers of a secret: its project's, then its own. */
  function LayersOf(w: World, secret: Id): seq<CustomPolicy.Layer> {
    var project := if secret in w.policy.db.secrets then w.policy.db.secrets[secret].project else None;
    CustomPolicy.Layers(CustomPolicy.SecretRow(
      if secret in w.configs then Some(w.configs[secret]) else None,
      if project.Some? && project.value in w.projectConfigs then Some(w.projectConfigs[project.value]) else None))
  }

  /** A layer that is set counts: the project's before the secret's own. */
  lemma SetLayersCount(v2: bool, lower: string -> string, w: World, secret: Id, c: CustomPolicy.Layer)
    ensures Live(w.policy.db, secret) ==>
      var layers := LayersOf(Act(v2, lower, w, SetConfig(secret, c)), secret); layers != [] && layers[|layers| - 1] == c
    ensures Live(w.policy.db, secret) && w.policy.db.secrets[secret].project.Some? ==>
      var layers := LayersOf(Act(v2, lower, w, SetProjectConfig(w.policy.db.secrets[secret].project.value, c)), secret);
      layers != [] && layers[0] == c
  {
  }

  function WithoutLayers(actions: seq<Action>): seq<Action> {
    if actions == [] then []
    else
      var last := actions[|actions| - 1];
      WithoutLayers(actions[..|actions| - 1]) + if last.SetConfig? || last.SetProjectConfig? then [] else [last]
  }

  function Bare(w: World): World {
    w.(configs := map[], projectConfigs := map[])
  }

  lemma ActIgnoresLayers(v2: bool, lower: string -> string, w: World, action: Action)
    ensures Bare(Act(v2, lower, w, action)) ==
      if action.SetConfig? || action.SetProjectConfig? then Bare(w) else Act(v2, lower, Bare(w), action)
  {
  }

  /** A history leaves the requests it would leave if nobody had ever set a custom policy. */
  lemma {:induction false} LayersAreIgnored(v2: bool, lower: string -> string, actions: seq<Action>)
    ensures History(v2, lower, WithoutLayers(actions)) == Bare(History(v2, lower, actions))
  {
    if actions != [] {
      var before, last := actions[..|actions| - 1], actions[|actions| - 1];
      LayersAreIgnored(v2, lower, before);
      ActIgnoresLayers(v2, lower, History(v2, lower, before), last);
      assert (WithoutLayers(before) + [last])[..|WithoutLayers(before)|] == WithoutLayers(before);
      assert WithoutLayers(before) + [] == WithoutLayers(before);
    }
  }

  /**
   So what is enforced for a request is what the secret's layers make of it exactly when they
   are redundant, and it starts out as they would have it, approved or not, exactly when none
   denies what was granted and none allows what only its allowance lacked.
   */
  lemma EnforcedAsLayeredIff(v2: bool, lower: string -> string, actions: seq<Action>, r: Id)
    requires r in History(v2, lower, actions).requests
    ensures var w := History(v2, lower, actions);
      var row, layers := w.requests[r], LayersOf(w, w.requests[r].secret);
      var base := row.enforced.params;
      && (CustomPolicy.Fold(base, layers) == base <==> CustomPolicy.Redundant(base, layers))
      && (CustomPolicy.AutoApproved(CustomPolicy.Fold(base, layers)) == row.approved <==>
            if row.approved then forall c :: c in layers ==> !CustomPolicy.Denies(c)
            else base.requireApproval || (exists c :: c in layers && CustomPolicy.Denies(c))
                 || forall c :: c in layers ==> !CustomPolicy.Allows(c))
  {
    HistoryKeepsSnapshots(v2, lower, actions);
    var w := History(v2, lower, actions);
    var row, layers := w.requests[r], LayersOf(w, w.requests[r].secret);
    assert Faithful(row);
    CustomPolicy.FoldIsBaseIff(row.enforced.params, layers);
    CustomPolicy.FoldApprovesAlikeIff(row.enforced.params, layers);
  }

  /** The failing input: an API key under a policy that blocks it. */
  function BlockedRequest(c: CustomPolicy.Layer): seq<Action> {
    [PolicyStep(AddSecret(0, Secret(None, "api_key", false))), SetConfig(0, c), Fetch(0, 0), Resolve(0, false), Insert(0, 0)]
  }

  /** The world after n of these actions. */
  function BlockedWorld(c: CustomPolicy.Layer, n: nat): World {
    var enforced := Enforced(DefaultParameters("api_key"), None, [], FromDefault);
    World(if n == 0 then PolicyTemplates.EMPTY else Sys(Db(map[], map[], map[], map[0 := Secret(None, "api_key", false)]), {}, {}),
          if n < 2 then map[] else map[0 := c],
          map[],
          if n == 3 then map[0 := Read(0, "api_key")] else if n == 4 then map[0 := Ready(0, "api_key", enforced)] else map[],
          if n < 5 then map[] else map[0 := Request(0, "api_key", Encode(enforced.params), None, true, enforced)])
  }

  lemma BlockedReads(v2: bool, lower: string -> string, c: CustomPolicy.Layer, n: nat)
    requires 0 < n <= 3
    ensures Act(v2, lower, BlockedWorld(c, n - 1), BlockedRequest(c)[n - 1]) == BlockedWorld(c, n)
  {
  }

  lemma BlockedWrites(v2: bool, lower: string -> string, c: CustomPolicy.Layer, n: nat)
    requires 3 < n <= 5
    ensures Act(v2, lower, BlockedWorld(c, n - 1), BlockedRequest(c)[n - 1]) == BlockedWorld(c, n)
  {
    var after := Act(v2, lower, BlockedWorld(c, n - 1), BlockedRequest(c)[n - 1]);
    assert after.pending == BlockedWorld(c, n).pending;
    assert after.requests == BlockedWorld(c, n).requests;
  }

  lemma {:induction false} BlockedProgress(v2: bool, lower: string -> string, c: CustomPolicy.Layer, n: nat)
    requires n <= 5
    ensures History(v2, lower, BlockedRequest(c)[..n]) == BlockedWorld(c, n)
  {
    if n > 0 {
      BlockedProgress(v2, lower, c, n - 1);
      var a := BlockedRequest(c)[..n];
      assert a[..|a| - 1] == BlockedRequest(c)[..n - 1] && a[|a| - 1] == BlockedRequest(c)[n - 1];
      if n <= 3 {
        BlockedReads(v2, lower, c, n);
      } else {
        BlockedWrites(v2, lower, c, n);
      }
    }
  }

  /** A request for a blocked secret starts out approved, where the policy that blocks it would have it decided. */
  lemma BlockedIsApproved(v2: bool, lower: string -> string, c: CustomPolicy.Layer)
    requires c.block
    ensures var w := History(v2, lower, BlockedRequest(c));
      && 0 in w.requests && w.requests[0].secret == 0 && w.requests[0].approved && LayersOf(w, 0) == [c]
      && !CustomPolicy.AutoApproved(CustomPolicy.Fold(w.requests[0].enforced.params, LayersOf(w, 0)))
  {
    BlockedProgress(v2, lower, c, 5);
    assert BlockedRequest(c)[..5] == BlockedRequest(c);
    var w := History(v2, lower, BlockedRequest(c));
    assert CustomPolicy.Denies(c) && c in LayersOf(w, 0);
    CustomPolicy.ApprovalIff(w.requests[0].enforced.params, LayersOf(w, 0));
  }
}
