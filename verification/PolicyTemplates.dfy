/**
 Policy templates, their numbered versions, and the bindings of secrets to versions.
 Every SQL statement is one step. What a handler read earlier is a fact it remembers,
 and it may act on it at any later time, whatever has happened in between.
 */
module PolicyTemplates {
  import opened Base
  import opened PolicyParameters
  import opened PolicyOverride
  import AuditColumns

  // ---- Tables -----------------------------------------------------------------

  /** A generated UUID, as the number it is. */
  type Id = nat

  datatype Template = Template(project: Id, name: string, isSystem: bool)

  datatype Binding = Binding(template: Id, version: int, override: Object, warnings: seq<Key>)

  datatype Secret = Secret(project: Option<Id>, credentialType: string, deleted: bool)

  /** A template's version rows, keyed by number as their unique constraint says; the column holds the encoding of the parameters given here. */
  type Rows = map<int, Params>

  datatype Db = Db(templates: map<Id, Template>, versions: map<Id, Rows>, bindings: map<Id, Binding>, secrets: map<Id, Secret>)

  // ---- Reading ----------------------------------------------------------------

  datatype PolicyFailure = NotFound | Forbidden | Conflict | Invalid(reason: PolicyError) | Failed

  predicate IsGreatest(v: int, s: set<int>) {
    v in s && forall u :: u in s ==> u <= v
  }

  lemma HasGreatest(s: set<int>, x: int)
    requires x in s
    ensures exists v :: IsGreatest(v, s)
    decreases |s|
  {
    if y :| y in s && y != x {
      HasGreatest(s - {x}, y);
      var v :| IsGreatest(v, s - {x});
      assert IsGreatest(if x > v then x else v, s) by {
        assert forall u :: u in s ==> u == x || u in s - {x};
      }
    } else {
      assert IsGreatest(x, s);
    }
  }

  /** COALESCE(MAX(version), 0) */
  function MaxVersion(rows: Rows): (n: int)
    ensures forall v :: v in rows ==> v <= n && n in rows
  {
    if exists x :: x in rows then
      assert exists v :: IsGreatest(v, rows.Keys) by {
        var x :| x in rows.Keys;
        HasGreatest(rows.Keys, x);
      }
      var v :| IsGreatest(v, rows.Keys);
      v
    else 0
  }

  predicate HasVersion(db: Db, id: Id, version: int) {
    id in db.versions && version in db.versions[id]
  }

  function GetTemplateVersion(db: Db, id: Id, version: int): Result<Params, PolicyFailure> {
    if !HasVersion(db, id, version) then Err(NotFound)
    else match ValidateParameters(Encode(db.versions[id][version]))
      case Ok(p) => Ok(p)
      case Err(e) => Err(Invalid(e))
  }

  function RowsOf(db: Db, id: Id): Rows {
    if id in db.versions then db.versions[id] else map[]
  }

  /** The template joined with its latest version. */
  function GetTemplate(db: Db, id: Id): Result<(Template, Params), PolicyFailure> {
    if id !in db.templates then Err(NotFound)
    else
      var p :- GetTemplateVersion(db, id, MaxVersion(RowsOf(db, id)));
      Ok((db.templates[id], p))
  }

  datatype Source = FromDefault | FromTemplate | FromOverride

  function SourceForBinding(override: Object): Source {
    if |override| > 0 then FromOverride else FromTemplate
  }

  /** A binding as the settings page reads it. */
  datatype BindingView = BindingView(template: Option<(Id, Template, int)>, override: Object, warnings: seq<Key>, policy: Params, source: Source)

  /** The policy that access requests are checked against. */
  datatype RuntimePolicy = RuntimePolicy(template: Option<(Id, int)>, warnings: seq<Key>, policy: Params, source: Source)

  function Resolved(params: Params, b: Binding): Result<Effective, PolicyFailure> {
    match ResolveEffectivePolicy(params, b.override)
    case Err(e) => Err(Invalid(e))
    case Ok(r) => Ok(if b.warnings == [] then r else r.(warnings := b.warnings))
  }

  function GetSecretBinding(db: Db, secret: Id): Result<BindingView, PolicyFailure> {
    if secret !in db.secrets || db.secrets[secret].deleted then Err(NotFound)
    else if secret !in db.bindings then Ok(Unbound(db.secrets[secret]))
    else
      var b := db.bindings[secret];
      if b.template !in db.templates || !HasVersion(db, b.template, b.version) then Ok(Unbound(db.secrets[secret]))
      else
        var params :- GetTemplateVersion(db, b.template, b.version);
        var r :- Resolved(params, b);
        Ok(BindingView(Some((b.template, db.templates[b.template], b.version)), b.override, r.warnings, r.params, SourceForBinding(b.override)))
  }

  function Unbound(secret: Secret): BindingView {
    BindingView(None, map[], [], DefaultParameters(secret.credentialType), FromDefault)
  }

  function ResolveRuntimePolicy(db: Db, secret: Id): Result<RuntimePolicy, PolicyFailure> {
    if secret !in db.secrets || db.secrets[secret].deleted then Err(NotFound)
    else
      var unbound := RuntimePolicy(None, [], DefaultParameters(db.secrets[secret].credentialType), FromDefault);
      if secret !in db.bindings then Ok(unbound)
      else
        var b := db.bindings[secret];
        if !HasVersion(db, b.template, b.version) then Ok(unbound)
        else
          var params :- GetTemplateVersion(db, b.template, b.version);
          var r :- Resolved(params, b);
          Ok(RuntimePolicy(Some((b.template, b.version)), r.warnings, r.params, SourceForBinding(b.override)))
  }

  // ---- Writing ----------------------------------------------------------------

  /** The unique index on project and lower-cased name. */
  predicate NameTaken(db: Db, lower: string -> string, project: Id, name: string) {
    exists id :: id in db.templates && db.templates[id].project == project && lower(db.templates[id].name) == lower(name)
  }

  predicate HasSystemTemplate(db: Db, lower: string -> string, project: Id, name: string) {
    exists id :: id in db.templates && db.templates[id].project == project && db.templates[id].isSystem
      && lower(db.templates[id].name) == lower(name)
  }

  /** A template row and its first version, in one transaction. */
  function InsertTemplate(db: Db, id: Id, t: Template, params: Params): Db {
    db.(templates := db.templates[id := t], versions := db.versions[id := map[1 := params]])
  }

  function InsertVersion(db: Db, id: Id, params: Params): Db {
    db.(versions := db.versions[id := RowsOf(db, id)[MaxVersion(RowsOf(db, id)) + 1 := params]])
  }

  /** The template row; its versions go with it. */
  function RemoveTemplate(db: Db, id: Id): Db {
    db.(templates := db.templates - {id}, versions := db.versions - {id})
  }

  predicate Used(db: Db, id: Id) {
    exists s :: s in db.bindings && db.bindings[s].template == id
  }

  function PutBinding(db: Db, secret: Id, b: Binding): Db {
    db.(bindings := db.bindings[secret := b])
  }

  // ---- Steps ------------------------------------------------------------------

  /** What a handler has read. */
  datatype Fact =
    | SawTemplate(id: Id, project: Id, isSystem: bool, params: Params)
    | SawVersion(id: Id, version: int, params: Params)
    | SawSecret(id: Id, secretProject: Option<Id>)
    | SawUnused(id: Id)

  /** used: every template id ever handed out; generated ids do not repeat. */
  datatype Sys = Sys(db: Db, facts: set<Fact>, used: set<Id>)

  /** Where a new template's parameters come from. */
  datatype Origin = Input(input: Object, project: Id) | Clone(source: Fact) | Seed(credentialType: string, project: Id)

  datatype Step =
    | ReadTemplate(id: Id)
    | ReadVersion(id: Id, version: int)
    | ReadSecret(id: Id)
    | CountUsage(id: Id)
    | CreateTemplate(id: Id, name: string, origin: Origin)
    | CreateVersion(id: Id, input: Object)
    | DeleteTemplate(id: Id)
    | Bind(secret: Id, sawTemplate: Fact, sawVersion: Fact, override: Object)
    | AddSecret(id: Id, row: Secret)
    | DeleteSecret(id: Id)

  /** The template an origin makes, if it makes one. */
  function NewTemplate(s: Sys, lower: string -> string, name: string, origin: Origin): Option<(Template, Params)> {
    var stored := AuditColumns.TrimSpace(name);
    match origin
    case Input(input, project) =>
      if ValidateParameters(input).Err? then None
      else Some((Template(project, stored, false), ValidateParameters(input).value))
    case Clone(source) =>
      if source !in s.facts || !source.SawTemplate? then None
      else Some((Template(source.project, stored, false), source.params))
    case Seed(credentialType, project) =>
      if HasSystemTemplate(s.db, lower, project, name) then None
      else Some((Template(project, stored, true), DefaultParameters(credentialType)))
  }

  const NAME_LENGTH := 120

  function OnCreateTemplate(s: Sys, lower: string -> string, id: Id, name: string, origin: Origin): Db {
    var made := NewTemplate(s, lower, name, origin);
    if made.None? || id in s.used || |made.value.0.name| > NAME_LENGTH
       || NameTaken(s.db, lower, made.value.0.project, made.value.0.name) then s.db
    else InsertTemplate(s.db, id, made.value.0, made.value.1)
  }

  function OnCreateVersion(s: Sys, id: Id, input: Object): Db {
    var params := ValidateParameters(input);
    if !SeenEditable(s, id) || id !in s.db.templates || params.Err? then s.db
    else InsertVersion(s.db, id, params.value)
  }

  function OnDeleteTemplate(s: Sys, id: Id): Db {
    if !SeenEditable(s, id) || SawUnused(id) !in s.facts || id !in s.db.templates || Used(s.db, id) then s.db
    else RemoveTemplate(s.db, id)
  }

  function OnBind(s: Sys, secret: Id, sawTemplate: Fact, sawVersion: Fact, override: Object): Db {
    if !MayBind(s, secret, sawTemplate, sawVersion) || !JsonShaped(override)
       || ResolveEffectivePolicy(sawVersion.params, override).Err?
       || secret !in s.db.secrets || !HasVersion(s.db, sawVersion.id, sawVersion.version) then s.db
    else
      var warnings := ResolveEffectivePolicy(sawVersion.params, override).value.warnings;
      PutBinding(s.db, secret, Binding(sawVersion.id, sawVersion.version, override, warnings))
  }

  /** Effects on the database; a statement that its guard or a constraint stops changes nothing. */
  function Effect(s: Sys, lower: string -> string, step: Step): Db {
    match step
    case CreateTemplate(id, name, origin) => OnCreateTemplate(s, lower, id, name, origin)
    case CreateVersion(id, input) => OnCreateVersion(s, id, input)
    case DeleteTemplate(id) => OnDeleteTemplate(s, id)
    case Bind(secret, sawTemplate, sawVersion, override) => OnBind(s, secret, sawTemplate, sawVersion, override)
    case AddSecret(id, row) =>
      if id in s.db.secrets then s.db else s.db.(secrets := s.db.secrets[id := row])
    case DeleteSecret(id) =>
      if id !in s.db.secrets then s.db else s.db.(secrets := s.db.secrets[id := s.db.secrets[id].(deleted := true)])
    case _ => s.db
  }

  /** Some handler has read the template and found it not to be a system one. */
  predicate SeenEditable(s: Sys, id: Id) {
    exists f :: f in s.facts && f.SawTemplate? && f.id == id && !f.isSystem
  }

  /** The reads behind a binding: the secret has a project, the template is of that project, the version exists. */
  predicate MayBind(s: Sys, secret: Id, sawTemplate: Fact, sawVersion: Fact) {
    && sawTemplate in s.facts && sawTemplate.SawTemplate?
    && sawVersion in s.facts && sawVersion.SawVersion? && sawVersion.id == sawTemplate.id
    && SawSecret(secret, Some(sawTemplate.project)) in s.facts
  }

  /** Values decoded from a request body: numbers are floats. */
  predicate JsonShaped(override: Object) {
    forall k :: k in override ==> !override[k].IntV?
  }

  function Learnt(s: Sys, step: Step): set<Fact> {
    match step
    case ReadTemplate(id) =>
      var r := GetTemplate(s.db, id);
      if r.Err? then {} else {SawTemplate(id, r.value.0.project, r.value.0.isSystem, r.value.1)}
    case ReadVersion(id, version) =>
      var r := GetTemplateVersion(s.db, id, version);
      if r.Err? then {} else {SawVersion(id, version, r.value)}
    case ReadSecret(id) =>
      if id !in s.db.secrets || s.db.secrets[id].deleted then {} else {SawSecret(id, s.db.secrets[id].project)}
    case CountUsage(id) =>
      if Used(s.db, id) then {} else {SawUnused(id)}
    case _ => {}
  }

  function Next(s: Sys, lower: string -> string, step: Step): Sys {
    Sys(Effect(s, lower, step), s.facts + Learnt(s, step), if step.CreateTemplate? then s.used + {step.id} else s.used)
  }

  function Run(s: Sys, lower: string -> string, steps: seq<Step>): Sys {
    if steps == [] then s else Next(Run(s, lower, steps[..|steps| - 1]), lower, steps[|steps| - 1])
  }

  const EMPTY := Sys(Db(map[], map[], map[], map[]), {}, {})

  // ---- Invariants -------------------------------------------------------------

  /** Versions 1 to some n, each canonical. */
  ghost predicate Numbered(rows: Rows) {
    && 1 in rows
    && (forall v :: v in rows ==> 1 <= v && Canonical(rows[v]))
    && (forall u, v :: v in rows && 1 <= u <= v ==> u in rows)
  }

  ghost predicate VersionsOk(db: Db) {
    && (forall id :: id in db.versions <==> id in db.templates)
    && (forall id :: id in db.versions ==> Numbered(db.versions[id]))
    && (forall id, v :: id in db.versions && db.templates[id].isSystem && v in db.versions[id] ==> v == 1)
  }

  /** The override applies to the stored parameters, with the stored warnings. */
  predicate Resolves(params: Params, b: Binding) {
    var r := ResolveEffectivePolicy(params, b.override);
    r.Ok? && r.value.warnings == b.warnings
  }

  predicate BindingOk(db: Db, secret: Id, b: Binding) {
    && secret in db.secrets && b.template in db.templates && HasVersion(db, b.template, b.version)
    && db.secrets[secret].project == Some(db.templates[b.template].project)
    && Resolves(db.versions[b.template][b.version], b)
  }

  ghost predicate BindingsOk(db: Db) {
    forall s :: s in db.bindings ==> BindingOk(db, s, db.bindings[s])
  }

  ghost predicate FactOk(s: Sys, f: Fact) {
    match f
    case SawTemplate(id, project, isSystem, params) =>
      && id in s.used && Canonical(params)
      && (id in s.db.templates ==> s.db.templates[id].project == project && s.db.templates[id].isSystem == isSystem)
    case SawVersion(id, version, params) =>
      && id in s.used
      && (id in s.db.templates ==> HasVersion(s.db, id, version) && s.db.versions[id][version] == params)
    case SawSecret(id, project) => id in s.db.secrets && s.db.secrets[id].project == project
    case SawUnused(id) => true
  }

  ghost predicate FactsOk(s: Sys) {
    && (forall id :: id in s.db.templates ==> id in s.used)
    && (forall f :: f in s.facts ==> FactOk(s, f))
  }

  ghost predicate Inv(s: Sys) {
    VersionsOk(s.db) && BindingsOk(s.db) && FactsOk(s)
  }

  lemma CanonicalDecodes(p: Params)
    requires Canonical(p)
    ensures ValidateParameters(Encode(p)) == Ok(p)
  {
    ValidationIsIdempotent(p);
  }

  lemma DefaultsEncode(credentialType: string)
    ensures Canonical(DefaultParameters(credentialType))
  {
    DefaultsAreCanonical(DeriveRiskTier(credentialType));
  }

  lemma NewTemplateIsCanonical(s: Sys, lower: string -> string, name: string, origin: Origin)
    requires FactsOk(s)
    ensures var made := NewTemplate(s, lower, name, origin); made.Some? ==> Canonical(made.value.1)
  {
    match origin
    case Input(input, _) =>
      ValidatedIsCanonical(input);
    case Clone(source) =>
      if source in s.facts && source.SawTemplate? {
        assert FactOk(s, source);
      }
    case Seed(credentialType, _) =>
      DefaultsEncode(credentialType);
  }

  /** From a database state to a later one: rows are added, removed only with their template, and never changed. */
  ghost predicate RowsStay(db: Db, later: Db) {
    && (forall id, v :: HasVersion(db, id, v) && id in later.templates ==> HasVersion(later, id, v) && later.versions[id][v] == db.versions[id][v])
    && (forall id :: id in db.templates && id in later.templates ==> later.templates[id] == db.templates[id])
  }

  // ---- Every step keeps the invariants ------------------------------------------

  /** No step changes a row; a version goes only with its template. */
  lemma StepKeepsRows(s: Sys, lower: string -> string, step: Step)
    requires VersionsOk(s.db) && FactsOk(s)
    ensures RowsStay(s.db, Effect(s, lower, step))
  {
    if Effect(s, lower, step) == s.db {
    } else if step.CreateTemplate? {
      var t, params := NewTemplateRow(s, lower, step.id, step.name, step.origin);
      InsertTemplateKeepsRows(s.db, step.id, t, params);
    } else if step.CreateVersion? {
      InsertVersionKeepsRows(s.db, step.id, ValidateParameters(step.input).value);
    } else {
      OtherStepsKeepVersions(s, lower, step);
      if step.DeleteTemplate? {
        RemovalKeepsRows(s.db, step.id);
      }
    }
  }

  lemma InsertTemplateKeepsRows(db: Db, id: Id, t: Template, params: Params)
    requires VersionsOk(db) && id !in db.templates
    ensures RowsStay(db, InsertTemplate(db, id, t, params))
  {
  }

  lemma InsertVersionKeepsRows(db: Db, id: Id, params: Params)
    ensures RowsStay(db, InsertVersion(db, id, params))
  {
  }

  lemma RemovalKeepsRows(db: Db, id: Id)
    ensures RowsStay(db, RemoveTemplate(db, id))
  {
  }

  lemma InsertTemplateKeepsVersions(db: Db, id: Id, t: Template, params: Params)
    requires VersionsOk(db) && id !in db.templates && Canonical(params)
    ensures VersionsOk(InsertTemplate(db, id, t, params))
  {
  }

  /** A row numbered one above the greatest leaves no gap. */
  lemma NextVersionIsNumbered(rows: Rows, params: Params)
    requires Numbered(rows) && Canonical(params)
    ensures Numbered(rows[MaxVersion(rows) + 1 := params])
  {
    var later := rows[MaxVersion(rows) + 1 := params];
    assert MaxVersion(rows) in rows;
    forall u, v | v in later && 1 <= u <= v ensures u in later {
      assert u <= MaxVersion(rows) ==> u in rows;
    }
  }

  lemma EditableIsNotSystem(s: Sys, id: Id)
    requires FactsOk(s) && SeenEditable(s, id) && id in s.db.templates
    ensures !s.db.templates[id].isSystem
  {
    var f :| f in s.facts && f.SawTemplate? && f.id == id && !f.isSystem;
    assert FactOk(s, f);
  }

  lemma NewTemplateRow(s: Sys, lower: string -> string, id: Id, name: string, origin: Origin) returns (t: Template, params: Params)
    requires FactsOk(s) && OnCreateTemplate(s, lower, id, name, origin) != s.db
    ensures OnCreateTemplate(s, lower, id, name, origin) == InsertTemplate(s.db, id, t, params)
    ensures Canonical(params) && id !in s.db.templates
  {
    NewTemplateIsCanonical(s, lower, name, origin);
    var made := NewTemplate(s, lower, name, origin);
    t, params := made.value.0, made.value.1;
  }

  lemma RemovalKeepsVersions(db: Db, id: Id)
    requires VersionsOk(db)
    ensures VersionsOk(RemoveTemplate(db, id))
  {
  }

  lemma OtherStepsKeepVersions(s: Sys, lower: string -> string, step: Step)
    requires !step.CreateTemplate? && !step.CreateVersion?
    ensures var later := Effect(s, lower, step);
      (later.versions == s.db.versions && later.templates == s.db.templates) || (step.DeleteTemplate? && later == RemoveTemplate(s.db, step.id))
  {
  }

  lemma NewVersionKeepsVersions(s: Sys, id: Id, input: Object)
    requires VersionsOk(s.db) && FactsOk(s) && OnCreateVersion(s, id, input) != s.db
    ensures VersionsOk(OnCreateVersion(s, id, input))
  {
    EditableIsNotSystem(s, id);
    ValidatedIsCanonical(input);
    NextVersionIsNumbered(s.db.versions[id], ValidateParameters(input).value);
  }

  lemma NewTemplateKeepsVersions(s: Sys, lower: string -> string, id: Id, name: string, origin: Origin)
    requires VersionsOk(s.db) && FactsOk(s) && OnCreateTemplate(s, lower, id, name, origin) != s.db
    ensures VersionsOk(OnCreateTemplate(s, lower, id, name, origin))
  {
    var t, params := NewTemplateRow(s, lower, id, name, origin);
    InsertTemplateKeepsVersions(s.db, id, t, params);
  }

  lemma StepKeepsVersions(s: Sys, lower: string -> string, step: Step)
    requires VersionsOk(s.db) && FactsOk(s)
    ensures VersionsOk(Effect(s, lower, step))
  {
    if Effect(s, lower, step) == s.db {
    } else if step.CreateTemplate? {
      NewTemplateKeepsVersions(s, lower, step.id, step.name, step.origin);
    } else if step.CreateVersion? {
      NewVersionKeepsVersions(s, step.id, step.input);
    } else {
      OtherStepsKeepVersions(s, lower, step);
      if step.DeleteTemplate? {
        RemovalKeepsVersions(s.db, step.id);
      }
    }
  }

  /** A binding outlives every change but its own replacement. */
  lemma BindingSurvives(db: Db, later: Db, secret: Id)
    requires secret in db.bindings && BindingOk(db, secret, db.bindings[secret])
    requires RowsStay(db, later) && db.bindings[secret].template in later.templates
    requires secret in later.secrets && later.secrets[secret].project == db.secrets[secret].project
    ensures BindingOk(later, secret, db.bindings[secret])
  {
  }

  lemma NewBindingIsOk(s: Sys, lower: string -> string, step: Step)
    requires VersionsOk(s.db) && FactsOk(s) && step.Bind? && Effect(s, lower, step) != s.db
    ensures var later := Effect(s, lower, step);
      later == s.db.(bindings := later.bindings) && step.secret in later.bindings
      && later.bindings == s.db.bindings[step.secret := later.bindings[step.secret]]
      && BindingOk(later, step.secret, later.bindings[step.secret])
  {
    assert FactOk(s, step.sawTemplate) && FactOk(s, step.sawVersion);
    assert FactOk(s, SawSecret(step.secret, Some(step.sawTemplate.project)));
  }

  /** What a step leaves of the bindings it does not put: the row, the template and the secret's project. */
  lemma BoundStay(s: Sys, lower: string -> string, step: Step, secret: Id)
    requires VersionsOk(s.db) && FactsOk(s)
    requires !step.Bind? || Effect(s, lower, step) == s.db || secret != step.secret
    ensures var later := Effect(s, lower, step);
      && (secret in later.bindings <==> secret in s.db.bindings)
      && (secret in s.db.bindings ==> later.bindings[secret] == s.db.bindings[secret])
      && (secret in s.db.bindings && s.db.bindings[secret].template in s.db.templates ==> s.db.bindings[secret].template in later.templates)
      && (secret in s.db.secrets ==> secret in later.secrets && later.secrets[secret].project == s.db.secrets[secret].project)
      && (secret in s.db.secrets ==> later.secrets[secret].credentialType == s.db.secrets[secret].credentialType)
  {
  }

  lemma StepKeepsBindings(s: Sys, lower: string -> string, step: Step)
    requires Inv(s)
    ensures BindingsOk(Effect(s, lower, step))
  {
    var later := Effect(s, lower, step);
    StepKeepsRows(s, lower, step);
    forall secret | secret in later.bindings ensures BindingOk(later, secret, later.bindings[secret]) {
      StepKeepsBinding(s, lower, step, secret);
    }
  }

  lemma StepKeepsBinding(s: Sys, lower: string -> string, step: Step, secret: Id)
    requires Inv(s) && secret in Effect(s, lower, step).bindings && RowsStay(s.db, Effect(s, lower, step))
    ensures BindingOk(Effect(s, lower, step), secret, Effect(s, lower, step).bindings[secret])
  {
    var later := Effect(s, lower, step);
    if step.Bind? && later != s.db && secret == step.secret {
      NewBindingIsOk(s, lower, step);
    } else {
      BoundStay(s, lower, step, secret);
      BindingSurvives(s.db, later, secret);
    }
  }

  lemma LearntIsTrue(s: Sys, step: Step)
    requires Inv(s)
    ensures forall f :: f in Learnt(s, step) ==> FactOk(s, f)
  {
    match step
    case ReadTemplate(id) =>
      if GetTemplate(s.db, id).Ok? {
        ValidatedIsCanonical(Encode(s.db.versions[id][MaxVersion(s.db.versions[id])]));
      }
    case ReadVersion(id, version) =>
      if HasVersion(s.db, id, version) {
        CanonicalDecodes(s.db.versions[id][version]);
      }
    case _ =>
  }

  lemma FactSurvives(s: Sys, lower: string -> string, step: Step, f: Fact)
    requires Inv(s) && FactOk(s, f)
    ensures FactOk(Next(s, lower, step), f)
  {
    StepKeepsRows(s, lower, step);
    UsedStayGone(s, lower, step);
    if f.SawSecret? {
      SecretStays(s, lower, step, f.id);
    }
    FactCarries(s, Next(s, lower, step), f);
  }

  lemma UsedStayGone(s: Sys, lower: string -> string, step: Step)
    ensures forall id :: id in s.used && id in Effect(s, lower, step).templates ==> id in s.db.templates
  {
  }

  lemma SecretStays(s: Sys, lower: string -> string, step: Step, id: Id)
    requires id in s.db.secrets
    ensures id in Effect(s, lower, step).secrets && Effect(s, lower, step).secrets[id].project == s.db.secrets[id].project
  {
  }

  lemma FactCarries(s: Sys, later: Sys, f: Fact)
    requires FactOk(s, f) && RowsStay(s.db, later.db) && s.used <= later.used
    requires forall id :: id in s.used && id in later.db.templates ==> id in s.db.templates
    requires f.SawSecret? ==> f.id in later.db.secrets && later.db.secrets[f.id].project == s.db.secrets[f.id].project
    ensures FactOk(later, f)
  {
  }

  lemma NextKeepsInv(s: Sys, lower: string -> string, step: Step)
    requires Inv(s)
    ensures Inv(Next(s, lower, step))
  {
    StepKeepsVersions(s, lower, step);
    StepKeepsBindings(s, lower, step);
    LearntIsTrue(s, step);
    forall f | f in Next(s, lower, step).facts ensures FactOk(Next(s, lower, step), f) {
      FactSurvives(s, lower, step, f);
    }
  }

  lemma {:induction false} RunKeepsInv(lower: string -> string, steps: seq<Step>)
    ensures Inv(Run(EMPTY, lower, steps))
  {
    if steps != [] {
      RunKeepsInv(lower, steps[..|steps| - 1]);
      NextKeepsInv(Run(EMPTY, lower, steps[..|steps| - 1]), lower, steps[|steps| - 1]);
    }
  }

  // ---- What holds in every run --------------------------------------------------

  /** A template's versions are exactly 1 up to its latest, and a system template has only version 1. */
  lemma VersionsAreNumbered(lower: string -> string, steps: seq<Step>, id: Id, v: int)
    requires id in Run(EMPTY, lower, steps).db.templates
    ensures var db := Run(EMPTY, lower, steps).db;
      && (HasVersion(db, id, v) <==> 1 <= v <= MaxVersion(RowsOf(db, id)))
      && (db.templates[id].isSystem ==> MaxVersion(RowsOf(db, id)) == 1)
  {
    RunKeepsInv(lower, steps);
    var db := Run(EMPTY, lower, steps).db;
    assert Numbered(db.versions[id]) && MaxVersion(db.versions[id]) in db.versions[id];
  }

  /** A deleted template's id never names a template again, and a system template stays. */
  lemma StepKeepsIdentity(s: Sys, lower: string -> string, step: Step, id: Id)
    requires Inv(s)
    ensures id in s.used && id !in s.db.templates ==> id !in Effect(s, lower, step).templates
    ensures id in s.db.templates && s.db.templates[id].isSystem ==> id in Effect(s, lower, step).templates
  {
    if step.DeleteTemplate? && SeenEditable(s, step.id) {
      var f :| f in s.facts && f.SawTemplate? && f.id == step.id && !f.isSystem;
      assert FactOk(s, f);
    }
  }

  lemma {:induction false} UsedStays(lower: string -> string, steps: seq<Step>, n: nat)
    requires n <= |steps|
    ensures Run(EMPTY, lower, steps[..n]).used <= Run(EMPTY, lower, steps).used
  {
    if n < |steps| {
      assert steps[..|steps| - 1][..n] == steps[..n];
      UsedStays(lower, steps[..|steps| - 1], n);
    } else {
      assert steps[..n] == steps;
    }
  }

  ghost predicate SystemTemplatesStay(db: Db, later: Db) {
    forall id :: id in db.templates && db.templates[id].isSystem ==> id in later.templates
  }

  /** Over any run: a version, once written, reads the same until its template is deleted, and a system template is never deleted. */
  lemma {:induction false} VersionsAreImmutable(lower: string -> string, steps: seq<Step>, n: nat)
    requires n <= |steps|
    ensures RowsStay(Run(EMPTY, lower, steps[..n]).db, Run(EMPTY, lower, steps).db)
    ensures SystemTemplatesStay(Run(EMPTY, lower, steps[..n]).db, Run(EMPTY, lower, steps).db)
  {
    if n == |steps| {
      assert steps[..n] == steps;
    } else {
      var before := steps[..|steps| - 1];
      assert before[..n] == steps[..n];
      VersionsAreImmutable(lower, before, n);
      UsedStays(lower, before, n);
      RunKeepsInv(lower, steps[..n]);
      RunKeepsInv(lower, before);
      StepKeepsRows(Run(EMPTY, lower, before), lower, steps[|steps| - 1]);
      forall id { StepKeepsIdentity(Run(EMPTY, lower, before), lower, steps[|steps| - 1], id); }
      RowsStayTwice(Run(EMPTY, lower, steps[..n]), Run(EMPTY, lower, before), Run(EMPTY, lower, steps));
    }
  }

  lemma RowsStayTwice(a: Sys, b: Sys, c: Sys)
    requires RowsStay(a.db, b.db) && RowsStay(b.db, c.db) && VersionsOk(a.db) && FactsOk(a) && a.used <= b.used
    requires forall id :: id in b.used && id !in b.db.templates ==> id !in c.db.templates
    ensures RowsStay(a.db, c.db)
  {
    forall id, v | HasVersion(a.db, id, v) && id in c.db.templates
      ensures HasVersion(c.db, id, v) && c.db.versions[id][v] == a.db.versions[id][v]
    {
      assert id in a.db.templates && id in b.db.templates;
      assert HasVersion(b.db, id, v);
    }
  }

  // ---- Reading a secret's policy ----------------------------------------------

  lemma ReadsAgree(db: Db, secret: Id)
    requires VersionsOk(db) && BindingsOk(db)
    requires secret in db.secrets && !db.secrets[secret].deleted
    ensures var view, runtime := GetSecretBinding(db, secret), ResolveRuntimePolicy(db, secret);
      && view.Ok? && runtime.Ok?
      && view.value.policy == runtime.value.policy && view.value.source == runtime.value.source
      && view.value.warnings == runtime.value.warnings && view.value.template.Some? == runtime.value.template.Some?
      && Canonical(runtime.value.policy)
  {
    if secret in db.bindings {
      var b := db.bindings[secret];
      assert BindingOk(db, secret, b);
      CanonicalDecodes(db.versions[b.template][b.version]);
      ValidatedIsCanonical(Plain(db.versions[b.template][b.version]) + b.override);
    }
    DefaultsEncode(db.secrets[secret].credentialType);
  }

  /** In every reachable state both ways of reading a live secret's policy succeed and agree, and a binding is to an existing version of a template of the secret's project. */
  lemma PolicyReadsNeverFail(lower: string -> string, steps: seq<Step>, secret: Id)
    requires var db := Run(EMPTY, lower, steps).db; secret in db.secrets && !db.secrets[secret].deleted
    ensures var db := Run(EMPTY, lower, steps).db;
      var view, runtime := GetSecretBinding(db, secret), ResolveRuntimePolicy(db, secret);
      && view.Ok? && runtime.Ok?
      && view.value.policy == runtime.value.policy && view.value.source == runtime.value.source
      && view.value.warnings == runtime.value.warnings
      && Canonical(runtime.value.policy) && (runtime.value.source == FromDefault <==> secret !in db.bindings)
      && (secret in db.bindings ==> BindingOk(db, secret, db.bindings[secret]))
  {
    RunKeepsInv(lower, steps);
    ReadsAgree(Run(EMPTY, lower, steps).db, secret);
    SourceTells(Run(EMPTY, lower, steps).db, secret);
  }

  /** A secret's policy is the default one exactly when it is not bound. */
  lemma SourceTells(db: Db, secret: Id)
    requires VersionsOk(db) && BindingsOk(db) && secret in db.secrets && !db.secrets[secret].deleted
    requires ResolveRuntimePolicy(db, secret).Ok?
    ensures ResolveRuntimePolicy(db, secret).value.source == FromDefault <==> secret !in db.bindings
  {
    if secret in db.bindings {
      assert BindingOk(db, secret, db.bindings[secret]);
    }
  }

  /** The policy a secret's requests meet depends only on its binding and the version that names. */
  lemma PolicyIsPinned(db: Db, later: Db, secret: Id)
    requires VersionsOk(db) && BindingsOk(db) && RowsStay(db, later)
    requires secret in db.secrets && secret in later.secrets && later.secrets[secret] == db.secrets[secret]
    requires secret in later.bindings <==> secret in db.bindings
    requires secret in db.bindings ==> later.bindings[secret] == db.bindings[secret] && db.bindings[secret].template in later.templates
    ensures ResolveRuntimePolicy(later, secret) == ResolveRuntimePolicy(db, secret)
  {
    if secret in db.bindings {
      assert BindingOk(db, secret, db.bindings[secret]);
    }
  }

  predicate Touches(step: Step, secret: Id) {
    (step.Bind? && step.secret == secret) || (step.DeleteSecret? && step.id == secret)
  }

  lemma UntouchedStep(s: Sys, lower: string -> string, step: Step, secret: Id)
    requires Inv(s) && secret in s.db.secrets && !Touches(step, secret)
    ensures ResolveRuntimePolicy(Effect(s, lower, step), secret) == ResolveRuntimePolicy(s.db, secret)
    ensures secret in Effect(s, lower, step).secrets
  {
    StepKeepsRows(s, lower, step);
    BoundStay(s, lower, step, secret);
    if secret in s.db.bindings {
      assert BindingOk(s.db, secret, s.db.bindings[secret]);
    }
    PolicyIsPinned(s.db, Effect(s, lower, step), secret);
  }

  /** However templates, versions and other bindings change, a secret's policy changes only when that secret is rebound. */
  lemma {:induction false} OnlyRebindingChangesPolicy(lower: string -> string, steps: seq<Step>, n: nat, secret: Id)
    requires n <= |steps| && secret in Run(EMPTY, lower, steps[..n]).db.secrets
    requires forall i :: n <= i < |steps| ==> !Touches(steps[i], secret)
    ensures secret in Run(EMPTY, lower, steps).db.secrets
    ensures ResolveRuntimePolicy(Run(EMPTY, lower, steps).db, secret) == ResolveRuntimePolicy(Run(EMPTY, lower, steps[..n]).db, secret)
  {
    if n == |steps| {
      assert steps[..n] == steps;
    } else {
      var before := steps[..|steps| - 1];
      assert before[..n] == steps[..n];
      OnlyRebindingChangesPolicy(lower, before, n, secret);
      RunKeepsInv(lower, before);
      UntouchedStep(Run(EMPTY, lower, before), lower, steps[|steps| - 1], secret);
    }
  }

  /** Once bound, the secret's requests meet the template version the handler saw with the override merged in, and the warnings it computed. */
  lemma BindingTakesEffect(s: Sys, lower: string -> string, step: Step)
    requires Inv(s) && step.Bind? && Effect(s, lower, step) != s.db && !s.db.secrets[step.secret].deleted
    ensures step.sawVersion.SawVersion?
    ensures var r := ResolveEffectivePolicy(step.sawVersion.params, step.override);
      r.Ok? && ResolveRuntimePolicy(Effect(s, lower, step), step.secret)
      == Ok(RuntimePolicy(Some((step.sawVersion.id, step.sawVersion.version)), r.value.warnings, r.value.params, SourceForBinding(step.override)))
  {
    assert FactOk(s, step.sawVersion);
    assert VersionsOk(s.db) && HasVersion(s.db, step.sawVersion.id, step.sawVersion.version);
    CanonicalDecodes(step.sawVersion.params);
  }

  // ---- The repository's methods, when no other handler comes between --------------

  /** The view of a binding just written, from what was computed to write it. */
  function ViewOf(db: Db, template: Id, version: int, override: Object, r: Effective): BindingView
    requires template in db.templates
  {
    BindingView(Some((template, db.templates[template], version)), override, r.warnings, r.params, SourceForBinding(override))
  }

  /** A live secret and a template of its own project. */
  predicate MayHold(db: Db, secret: Id, template: Id) {
    && secret in db.secrets && !db.secrets[secret].deleted && template in db.templates
    && db.secrets[secret].project == Some(db.templates[template].project)
  }

  lemma TemplatesRead(db: Db, id: Id)
    requires VersionsOk(db) && id in db.templates
    ensures GetTemplate(db, id).Ok?
  {
    assert Numbered(db.versions[id]) && MaxVersion(db.versions[id]) in db.versions[id];
    CanonicalDecodes(db.versions[id][MaxVersion(db.versions[id])]);
  }

  lemma PutReadsBack(db: Db, secret: Id, template: Id, version: int, override: Object)
    requires VersionsOk(db) && BindingsOk(db) && secret in db.secrets && !db.secrets[secret].deleted && HasVersion(db, template, version)
    requires db.secrets[secret].project == Some(db.templates[template].project)
    requires ResolveEffectivePolicy(db.versions[template][version], override).Ok?
    ensures var r := ResolveEffectivePolicy(db.versions[template][version], override).value;
      var later := PutBinding(db, secret, Binding(template, version, override, r.warnings));
      BindingsOk(later) && GetSecretBinding(later, secret) == Ok(ViewOf(db, template, version, override, r))
  {
    var r := ResolveEffectivePolicy(db.versions[template][version], override).value;
    var later := PutBinding(db, secret, Binding(template, version, override, r.warnings));
    CanonicalDecodes(db.versions[template][version]);
    forall s | s in later.bindings ensures BindingOk(later, s, later.bindings[s]) {
      if s != secret {
        assert BindingOk(db, s, db.bindings[s]);
      }
    }
  }

  ghost predicate Sound(db: Db) {
    VersionsOk(db) && BindingsOk(db)
  }

  ghost predicate PoliciesStay(db: Db, later: Db) {
    forall secret :: ResolveRuntimePolicy(later, secret) == ResolveRuntimePolicy(db, secret)
  }

  /** What the methods on templates leave alone: rows, bindings and every secret's policy. */
  ghost predicate Undisturbed(db: Db, later: Db) {
    Sound(later) && RowsStay(db, later) && PoliciesStay(db, later)
  }

  lemma TemplatesChange(db: Db, later: Db)
    requires Sound(db) && VersionsOk(later) && RowsStay(db, later) && later.bindings == db.bindings && later.secrets == db.secrets
    requires forall s :: s in db.bindings ==> db.bindings[s].template in later.templates
    ensures Undisturbed(db, later)
  {
    forall s | s in later.bindings ensures BindingOk(later, s, later.bindings[s]) {
      BindingSurvives(db, later, s);
    }
    forall secret ensures ResolveRuntimePolicy(later, secret) == ResolveRuntimePolicy(db, secret) {
      if secret in db.secrets {
        PolicyIsPinned(db, later, secret);
      }
    }
  }

  lemma InsertionUndisturbed(db: Db, id: Id, t: Template, params: Params)
    requires Sound(db) && id !in db.templates && Canonical(params)
    ensures Undisturbed(db, InsertTemplate(db, id, t, params))
    ensures GetTemplate(InsertTemplate(db, id, t, params), id) == Ok((t, params))
  {
    InsertTemplateKeepsVersions(db, id, t, params);
    InsertTemplateKeepsRows(db, id, t, params);
    BoundTemplates(db);
    TemplatesChange(db, InsertTemplate(db, id, t, params));
    NewTemplateReads(db, id, t, params);
  }

  lemma NewTemplateReads(db: Db, id: Id, t: Template, params: Params)
    requires Canonical(params)
    ensures GetTemplate(InsertTemplate(db, id, t, params), id) == Ok((t, params))
  {
    CanonicalDecodes(params);
    OnlyVersion(params);
  }

  lemma OnlyVersion(params: Params)
    ensures MaxVersion(map[1 := params]) == 1
  {
    assert 1 in map[1 := params];
    assert MaxVersion(map[1 := params]) in map[1 := params];
  }

  lemma BoundTemplates(db: Db)
    requires BindingsOk(db)
    ensures forall s :: s in db.bindings ==> db.bindings[s].template in db.templates
  {
    forall s | s in db.bindings ensures db.bindings[s].template in db.templates {
      assert BindingOk(db, s, db.bindings[s]);
    }
  }

  lemma VersionUndisturbed(db: Db, id: Id, params: Params)
    requires Sound(db) && id in db.templates && !db.templates[id].isSystem && Canonical(params)
    ensures Undisturbed(db, InsertVersion(db, id, params))
  {
    NextVersionKeeps(db, id, params);
    BoundTemplates(db);
    TemplatesChange(db, InsertVersion(db, id, params));
  }

  lemma NextVersionKeeps(db: Db, id: Id, params: Params)
    requires VersionsOk(db) && id in db.templates && !db.templates[id].isSystem && Canonical(params)
    ensures VersionsOk(InsertVersion(db, id, params)) && RowsStay(db, InsertVersion(db, id, params))
  {
    var n := MaxVersion(db.versions[id]);
    NextVersionIsNumbered(db.versions[id], params);
    VersionAdded(db, id, n + 1, params);
    InsertVersionKeepsRows(db, id, params);
  }

  lemma VersionAdded(db: Db, id: Id, n: int, params: Params)
    requires VersionsOk(db) && id in db.templates && !db.templates[id].isSystem && n !in db.versions[id]
    requires Numbered(db.versions[id][n := params])
    ensures VersionsOk(db.(versions := db.versions[id := db.versions[id][n := params]]))
  {
  }

  lemma VersionReadsBack(db: Db, id: Id, params: Params)
    requires VersionsOk(db) && id in db.templates && Canonical(params)
    ensures GetTemplate(InsertVersion(db, id, params), id) == Ok((db.templates[id], params))
  {
    CanonicalDecodes(params);
    LatestIsNew(db.versions[id], params);
  }

  lemma LatestIsNew(rows: Rows, params: Params)
    ensures var later := rows[MaxVersion(rows) + 1 := params]; MaxVersion(later) in later && later[MaxVersion(later)] == params
  {
    var later := rows[MaxVersion(rows) + 1 := params];
    assert MaxVersion(rows) + 1 in later;
    assert MaxVersion(later) in later && MaxVersion(later) >= MaxVersion(rows) + 1;
  }

  lemma RemovalUndisturbed(db: Db, id: Id)
    requires Sound(db) && !Used(db, id)
    ensures Undisturbed(db, RemoveTemplate(db, id))
  {
    RemovalKeepsVersions(db, id);
    BoundTemplates(db);
    TemplatesChange(db, RemoveTemplate(db, id));
  }

  // ---- Handlers that nobody disturbs ---------------------------------------------------

  /** No template of the project has the name, but for letter case. */
  ghost predicate NameFree(db: Db, lower: string -> string, project: Id, name: string) {
    forall t :: t in db.templates && db.templates[t].project == project ==> lower(db.templates[t].name) != lower(name)
  }

  /** Nothing but one template is there that was not before. */
  ghost predicate OneNew(db: Db, later: Db, id: Id, t: Template, params: Params) {
    && GetTemplate(later, id) == Ok((t, params)) && id !in db.templates && later.templates == db.templates[id := t]
    && later.bindings == db.bindings && later.secrets == db.secrets
    && forall other :: other in db.versions && other != id ==> other in later.versions && later.versions[other] == db.versions[other]
  }

  lemma CreationIsOneNew(s: Sys, id: Id, t: Template, params: Params)
    requires FactsOk(s) && VersionsOk(s.db) && id !in s.used && Canonical(params)
    ensures OneNew(s.db, InsertTemplate(s.db, id, t, params), id, t, params)
  {
    NewTemplateReads(s.db, id, t, params);
  }

  /** A submitted template is stored with what validation makes of its parameters, unless they are invalid or its name is taken or too long. */
  lemma SubmittedIsStored(s: Sys, lower: string -> string, id: Id, name: string, input: Object, project: Id)
    requires Inv(s) && id !in s.used
    ensures var later, stored := Next(s, lower, CreateTemplate(id, name, Input(input, project))).db, AuditColumns.TrimSpace(name);
      if ValidateParameters(input).Ok? && |stored| <= 120 && NameFree(s.db, lower, project, stored)
      then OneNew(s.db, later, id, Template(project, stored, false), ValidateParameters(input).value)
      else later == s.db
  {
    ValidatedIsCanonical(input);
    if ValidateParameters(input).Ok? {
      CreationIsOneNew(s, id, Template(project, AuditColumns.TrimSpace(name), false), ValidateParameters(input).value);
    }
  }

  /** A system template is seeded with the defaults of its type. */
  lemma SeededIsDefault(s: Sys, lower: string -> string, id: Id, name: string, credentialType: string, project: Id)
    requires Inv(s) && id !in s.used && AuditColumns.TrimSpace(name) == name
    ensures var later := Next(s, lower, CreateTemplate(id, name, Seed(credentialType, project))).db;
      if |name| <= 120 && NameFree(s.db, lower, project, name)
      then OneNew(s.db, later, id, Template(project, name, true), DefaultParameters(credentialType))
      else later == s.db
  {
    SeedEffect(s, lower, id, name, credentialType, project);
    DefaultsEncode(credentialType);
    CreationIsOneNew(s, id, Template(project, name, true), DefaultParameters(credentialType));
  }

  lemma SeedEffect(s: Sys, lower: string -> string, id: Id, name: string, credentialType: string, project: Id)
    requires id !in s.used && AuditColumns.TrimSpace(name) == name
    ensures OnCreateTemplate(s, lower, id, name, Seed(credentialType, project)) ==
      if |name| <= 120 && NameFree(s.db, lower, project, name)
      then InsertTemplate(s.db, id, Template(project, name, true), DefaultParameters(credentialType)) else s.db
  {
    NameFreeIff(s.db, lower, project, name);
    var made := NewTemplate(s, lower, name, Seed(credentialType, project));
    if HasSystemTemplate(s.db, lower, project, name) {
      assert made == None;
    } else {
      assert made == Some((Template(project, name, true), DefaultParameters(credentialType)));
    }
  }

  lemma NameFreeIff(db: Db, lower: string -> string, project: Id, name: string)
    ensures NameFree(db, lower, project, name) <==> !NameTaken(db, lower, project, name)
    ensures NameFree(db, lower, project, name) ==> !HasSystemTemplate(db, lower, project, name)
  {
  }

  lemma RunUnfolds(s: Sys, lower: string -> string, before: seq<Step>, last: Step, all: seq<Step>)
    requires |all| == |before| + 1 && all[..|before|] == before && all[|before|] == last
    ensures Run(s, lower, all) == Next(Run(s, lower, before), lower, last)
  {
  }

  lemma TwoSteps(s: Sys, lower: string -> string, a: Step, b: Step)
    ensures Run(s, lower, [a, b]) == Next(Next(s, lower, a), lower, b)
  {
    RunUnfolds(s, lower, [], a, [a]);
    RunUnfolds(s, lower, [a], b, [a, b]);
  }

  lemma ThreeSteps(s: Sys, lower: string -> string, a: Step, b: Step, c: Step)
    ensures Run(s, lower, [a, b, c]) == Next(Next(Next(s, lower, a), lower, b), lower, c)
  {
    TwoSteps(s, lower, a, b);
    RunUnfolds(s, lower, [a, b], c, [a, b, c]);
  }

  lemma FourSteps(s: Sys, lower: string -> string, a: Step, b: Step, c: Step, d: Step)
    ensures Run(s, lower, [a, b, c, d]) == Next(Next(Next(Next(s, lower, a), lower, b), lower, c), lower, d)
  {
    ThreeSteps(s, lower, a, b, c);
    RunUnfolds(s, lower, [a, b, c], d, [a, b, c, d]);
  }

  /** A read of a template remembers it. */
  lemma TemplateIsSeen(s: Sys, lower: string -> string, id: Id)
    requires Inv(s) && id in s.db.templates
    ensures var r, n := GetTemplate(s.db, id), Next(s, lower, ReadTemplate(id));
      && r.Ok? && r.value.0 == s.db.templates[id] && n.db == s.db && n.used == s.used && s.facts <= n.facts && Inv(n)
      && SawTemplate(id, r.value.0.project, r.value.0.isSystem, r.value.1) in n.facts
  {
    TemplatesRead(s.db, id);
    NextKeepsInv(s, lower, ReadTemplate(id));
  }

  /** A clone has the source's parameters, in the source's project, and is no system template. */
  lemma CloneIsAlike(s: Sys, lower: string -> string, source: Id, id: Id, name: string)
    requires Inv(s) && source in s.db.templates && id !in s.used
    requires |AuditColumns.TrimSpace(name)| <= 120 && NameFree(s.db, lower, s.db.templates[source].project, AuditColumns.TrimSpace(name))
    ensures GetTemplate(s.db, source).Ok?
    ensures var t, params := s.db.templates[source], GetTemplate(s.db, source).value.1;
      var n := Run(s, lower, [ReadTemplate(source), CreateTemplate(id, name, Clone(SawTemplate(source, t.project, t.isSystem, params)))]);
      OneNew(s.db, n.db, id, Template(t.project, AuditColumns.TrimSpace(name), false), params)
  {
    TemplateIsSeen(s, lower, source);
    var t, params := s.db.templates[source], GetTemplate(s.db, source).value.1;
    var saw := SawTemplate(source, t.project, t.isSystem, params);
    TwoSteps(s, lower, ReadTemplate(source), CreateTemplate(id, name, Clone(saw)));
    CloneEffect(Next(s, lower, ReadTemplate(source)), lower, id, name, saw);
  }

  lemma CloneEffect(s: Sys, lower: string -> string, id: Id, name: string, saw: Fact)
    requires Inv(s) && id !in s.used && saw in s.facts && saw.SawTemplate?
    requires |AuditColumns.TrimSpace(name)| <= 120 && NameFree(s.db, lower, saw.project, AuditColumns.TrimSpace(name))
    ensures OneNew(s.db, Next(s, lower, CreateTemplate(id, name, Clone(saw))).db, id,
                   Template(saw.project, AuditColumns.TrimSpace(name), false), saw.params)
  {
    assert FactOk(s, saw);
    NameFreeIff(s.db, lower, saw.project, AuditColumns.TrimSpace(name));
    CreationIsOneNew(s, id, Template(saw.project, AuditColumns.TrimSpace(name), false), saw.params);
  }

  /** An edit of a template that is no system template gives it the next version, and all older ones stay. */
  lemma EditIsStored(s: Sys, lower: string -> string, id: Id, input: Object)
    requires Inv(s) && id in s.db.templates
    ensures var later := Run(s, lower, [ReadTemplate(id), CreateVersion(id, input)]).db;
      if s.db.templates[id].isSystem || ValidateParameters(input).Err? then later == s.db
      else
        && GetTemplate(later, id) == Ok((s.db.templates[id], ValidateParameters(input).value))
        && later.versions == s.db.versions[id := s.db.versions[id][MaxVersion(s.db.versions[id]) + 1 := ValidateParameters(input).value]]
        && later.templates == s.db.templates && later.bindings == s.db.bindings && later.secrets == s.db.secrets
  {
    TemplateIsSeen(s, lower, id);
    TwoSteps(s, lower, ReadTemplate(id), CreateVersion(id, input));
    ValidatedIsCanonical(input);
    var m := Next(s, lower, ReadTemplate(id));
    if s.db.templates[id].isSystem {
      SystemIsNotEdited(m, id);
    } else if ValidateParameters(input).Ok? {
      VersionReadsBack(s.db, id, ValidateParameters(input).value);
      var f := SawTemplate(id, s.db.templates[id].project, false, GetTemplate(s.db, id).value.1);
      assert f in m.facts;
    }
  }

  lemma SystemIsNotEdited(s: Sys, id: Id)
    requires Inv(s) && id in s.db.templates && s.db.templates[id].isSystem
    ensures !SeenEditable(s, id)
  {
    if SeenEditable(s, id) {
      EditableIsNotSystem(s, id);
    }
  }

  lemma UnusedIsSeen(s: Sys, lower: string -> string, id: Id)
    ensures var n := Next(s, lower, CountUsage(id));
      n.db == s.db && s.facts <= n.facts && (!Used(s.db, id) ==> SawUnused(id) in n.facts)
  {
  }

  lemma SeenUnusedIsDeleted(s: Sys, lower: string -> string, id: Id)
    requires SeenEditable(s, id) && id in s.db.templates
    requires !Used(s.db, id) ==> SawUnused(id) in s.facts
    ensures Next(s, lower, DeleteTemplate(id)).db == if Used(s.db, id) then s.db else RemoveTemplate(s.db, id)
  {
  }

  /** A template that no secret is bound to and that is no system template is deleted with its versions; a used one stays. */
  lemma DeletionIsDone(s: Sys, lower: string -> string, id: Id)
    requires Inv(s) && id in s.db.templates && !s.db.templates[id].isSystem
    ensures var later := Run(s, lower, [ReadTemplate(id), CountUsage(id), DeleteTemplate(id)]).db;
      if exists b :: b in s.db.bindings && s.db.bindings[b].template == id then later == s.db
      else later == s.db.(templates := s.db.templates - {id}, versions := s.db.versions - {id})
  {
    TemplateIsSeen(s, lower, id);
    ThreeSteps(s, lower, ReadTemplate(id), CountUsage(id), DeleteTemplate(id));
    var s1 := Next(s, lower, ReadTemplate(id));
    var f := SawTemplate(id, s.db.templates[id].project, false, GetTemplate(s.db, id).value.1);
    assert f in s1.facts;
    UnusedIsSeen(s1, lower, id);
    SeenUnusedIsDeleted(Next(s1, lower, CountUsage(id)), lower, id);
  }

  /** A binding is written whenever the secret lives in the template's project, the version exists, and the override is valid. */
  lemma BindingIsWritten(s: Sys, lower: string -> string, secret: Id, template: Id, version: int, override: Object)
    requires Inv(s) && secret in s.db.secrets && !s.db.secrets[secret].deleted && template in s.db.templates
    requires s.db.secrets[secret].project == Some(s.db.templates[template].project)
    requires template in s.db.versions && version in s.db.versions[template]
    requires (forall k :: k in override ==> !override[k].IntV?) && ResolveEffectivePolicy(s.db.versions[template][version], override).Ok?
    ensures GetTemplate(s.db, template).Ok?
    ensures var t := s.db.templates[template];
      var params := s.db.versions[template][version];
      var bind := Bind(secret, SawTemplate(template, t.project, t.isSystem, GetTemplate(s.db, template).value.1),
                       SawVersion(template, version, params), override);
      Run(s, lower, [ReadSecret(secret), ReadTemplate(template), ReadVersion(template, version), bind]).db
      == s.db.(bindings := s.db.bindings[secret := Binding(template, version, override, ResolveEffectivePolicy(params, override).value.warnings)])
  {
    var t, params := s.db.templates[template], s.db.versions[template][version];
    var s1 := Next(s, lower, ReadSecret(secret));
    SecretIsSeen(s, lower, secret);
    TemplateIsSeen(s1, lower, template);
    var s2 := Next(s1, lower, ReadTemplate(template));
    VersionIsSeen(s2, lower, template, version);
    var sawTemplate := SawTemplate(template, t.project, t.isSystem, GetTemplate(s.db, template).value.1);
    BindEffect(Next(s2, lower, ReadVersion(template, version)), lower, secret, sawTemplate, SawVersion(template, version, params), override);
    FourSteps(s, lower, ReadSecret(secret), ReadTemplate(template), ReadVersion(template, version),
              Bind(secret, sawTemplate, SawVersion(template, version, params), override));
  }

  lemma SecretIsSeen(s: Sys, lower: string -> string, secret: Id)
    requires Inv(s) && secret in s.db.secrets && !s.db.secrets[secret].deleted
    ensures var n := Next(s, lower, ReadSecret(secret));
      n.db == s.db && s.facts <= n.facts && Inv(n) && SawSecret(secret, s.db.secrets[secret].project) in n.facts
  {
    NextKeepsInv(s, lower, ReadSecret(secret));
  }

  lemma VersionIsSeen(s: Sys, lower: string -> string, id: Id, version: int)
    requires Inv(s) && HasVersion(s.db, id, version)
    ensures var n := Next(s, lower, ReadVersion(id, version));
      n.db == s.db && s.facts <= n.facts && SawVersion(id, version, s.db.versions[id][version]) in n.facts
  {
    CanonicalDecodes(s.db.versions[id][version]);
  }

  lemma BindEffect(s: Sys, lower: string -> string, secret: Id, sawTemplate: Fact, sawVersion: Fact, override: Object)
    requires sawTemplate in s.facts && sawTemplate.SawTemplate? && sawVersion in s.facts && sawVersion.SawVersion?
    requires sawVersion.id == sawTemplate.id && SawSecret(secret, Some(sawTemplate.project)) in s.facts
    requires secret in s.db.secrets && HasVersion(s.db, sawVersion.id, sawVersion.version)
    requires (forall k :: k in override ==> !override[k].IntV?) && ResolveEffectivePolicy(sawVersion.params, override).Ok?
    ensures Next(s, lower, Bind(secret, sawTemplate, sawVersion, override)).db
      == s.db.(bindings := s.db.bindings[secret := Binding(sawVersion.id, sawVersion.version, override,
                                                           ResolveEffectivePolicy(sawVersion.params, override).value.warnings)])
  {
    var step := Bind(secret, sawTemplate, sawVersion, override);
    assert MayBind(s, secret, sawTemplate, sawVersion) && JsonShaped(override);
    assert Next(s, lower, step).db == OnBind(s, secret, sawTemplate, sawVersion, override);
  }

  /** A secret that is added reads with the default of its type; one that is deleted is not found, then and ever after. */
  lemma {:induction false} DeletedStaysGone(s: Sys, lower: string -> string, id: Id, steps: seq<Step>)
    requires id in s.db.secrets
    ensures var n := Run(Next(s, lower, DeleteSecret(id)), lower, steps).db;
      id in n.secrets && n.secrets[id].deleted && ResolveRuntimePolicy(n, id) == Err(NotFound) && GetSecretBinding(n, id) == Err(NotFound)
  {
    if steps != [] {
      DeletedStaysGone(s, lower, id, steps[..|steps| - 1]);
      DeletedSecretStays(Run(Next(s, lower, DeleteSecret(id)), lower, steps[..|steps| - 1]), lower, steps[|steps| - 1], id);
    }
  }

  lemma DeletedSecretStays(s: Sys, lower: string -> string, step: Step, id: Id)
    requires id in s.db.secrets && s.db.secrets[id].deleted
    ensures var n := Next(s, lower, step).db; id in n.secrets && n.secrets[id].deleted
  {
  }

  lemma AddedReadsDefault(s: Sys, lower: string -> string, id: Id, row: Secret)
    requires Inv(s) && id !in s.db.secrets && !row.deleted
    ensures ResolveRuntimePolicy(Next(s, lower, AddSecret(id, row)).db, id)
         == Ok(RuntimePolicy(None, [], DefaultParameters(row.credentialType), FromDefault))
  {
    assert id in s.db.bindings ==> BindingOk(s.db, id, s.db.bindings[id]);
  }

  // ---- Names -----------------------------------------------------------------------

  predicate SameName(db: Db, lower: string -> string, a: Id, b: Id)
    requires a in db.templates && b in db.templates
  {
    db.templates[a].project == db.templates[b].project && lower(db.templates[a].name) == lower(db.templates[b].name)
  }

  /** No two templates of a project have one name, whatever the letter case. */
  ghost predicate NamesApart(db: Db, lower: string -> string) {
    forall a, b :: a in db.templates && b in db.templates && SameName(db, lower, a, b) ==> a == b
  }

  lemma NextKeepsNames(s: Sys, lower: string -> string, step: Step)
    requires FactsOk(s) && NamesApart(s.db, lower)
    ensures NamesApart(Next(s, lower, step).db, lower)
  {
    var later := Effect(s, lower, step);
    if step.CreateTemplate? && later != s.db {
      CreatedNameIsFree(s, lower, step.id, step.name, step.origin);
    } else {
      OtherStepsAddNoName(s, lower, step);
      FewerNames(s.db, later, lower);
    }
  }

  lemma FewerNames(db: Db, later: Db, lower: string -> string)
    requires NamesApart(db, lower) && forall a :: a in later.templates ==> a in db.templates && later.templates[a] == db.templates[a]
    ensures NamesApart(later, lower)
  {
    forall a, b | a in later.templates && b in later.templates && SameName(later, lower, a, b) ensures a == b {
      assert SameName(db, lower, a, b);
    }
  }

  lemma CreatedNameIsFree(s: Sys, lower: string -> string, id: Id, name: string, origin: Origin)
    requires FactsOk(s) && OnCreateTemplate(s, lower, id, name, origin) != s.db && NamesApart(s.db, lower)
    ensures NamesApart(OnCreateTemplate(s, lower, id, name, origin), lower)
  {
    var t, params := NewTemplateRow(s, lower, id, name, origin);
    var made := NewTemplate(s, lower, name, origin).value.0;
    assert NameFree(s.db, lower, made.project, made.name);
    NameAdded(s.db, lower, id, made, NewTemplate(s, lower, name, origin).value.1);
  }

  lemma NameAdded(db: Db, lower: string -> string, id: Id, t: Template, params: Params)
    requires NamesApart(db, lower) && id !in db.templates && NameFree(db, lower, t.project, t.name)
    ensures NamesApart(InsertTemplate(db, id, t, params), lower)
  {
  }

  lemma OtherStepsAddNoName(s: Sys, lower: string -> string, step: Step)
    requires !step.CreateTemplate? || Effect(s, lower, step) == s.db
    ensures var later := Effect(s, lower, step).templates;
      forall a :: a in later ==> a in s.db.templates && later[a] == s.db.templates[a]
  {
  }

  /** Over every run, template names are apart within a project. */
  lemma {:induction false} NamesStayApart(lower: string -> string, steps: seq<Step>)
    ensures NamesApart(Run(EMPTY, lower, steps).db, lower)
  {
    if steps != [] {
      NamesStayApart(lower, steps[..|steps| - 1]);
      RunKeepsInv(lower, steps[..|steps| - 1]);
      NextKeepsNames(Run(EMPTY, lower, steps[..|steps| - 1]), lower, steps[|steps| - 1]);
    }
  }

  class PolicyStore {
    var templates: map<Id, Template>
    var versions: map<Id, Rows>
    var bindings: map<Id, Binding>
    var secrets: map<Id, Secret>

    constructor (secrets: map<Id, Secret>)
      ensures State() == Db(map[], map[], map[], secrets)
    {
      templates, versions, bindings, this.secrets := map[], map[], map[], secrets;
    }

    function State(): Db
      reads this
    {
      Db(templates, versions, bindings, secrets)
    }

    /** One transaction: a refused name leaves neither row. */
    method CreateTemplate(lower: string -> string, id: Id, project: Id, name: string, isSystem: bool, params: Params) returns (created: bool)
      requires id !in templates
      modifies this
      ensures created <==> |AuditColumns.TrimSpace(name)| <= NAME_LENGTH && !NameTaken(old(State()), lower, project, AuditColumns.TrimSpace(name))
      ensures State() == if created then InsertTemplate(old(State()), id, Template(project, AuditColumns.TrimSpace(name), isSystem), params)
                         else old(State())
      ensures old(Sound(State())) && Canonical(params) ==> Undisturbed(old(State()), State())
      ensures old(Sound(State())) && Canonical(params) && created ==>
        GetTemplate(State(), id) == Ok((Template(project, AuditColumns.TrimSpace(name), isSystem), params))
    {
      if Sound(State()) && Canonical(params) {
        InsertionUndisturbed(State(), id, Template(project, AuditColumns.TrimSpace(name), isSystem), params);
      }
      var stored := AuditColumns.TrimSpace(name);
      created := |stored| <= NAME_LENGTH && !NameTaken(State(), lower, project, stored);
      if created {
        templates := templates[id := Template(project, stored, isSystem)];
        versions := versions[id := map[1 := params]];
      }
    }

    /** Seeding an existing system template, or a name another template holds, changes nothing. */
    method EnsureSystemTemplate(lower: string -> string, id: Id, project: Id, name: string, params: Params)
      requires id !in templates
      modifies this
      ensures State() ==
        if HasSystemTemplate(old(State()), lower, project, name) || |AuditColumns.TrimSpace(name)| > NAME_LENGTH
           || NameTaken(old(State()), lower, project, AuditColumns.TrimSpace(name)) then old(State())
        else InsertTemplate(old(State()), id, Template(project, AuditColumns.TrimSpace(name), true), params)
      ensures old(Sound(State())) && Canonical(params) ==> Undisturbed(old(State()), State())
      ensures |AuditColumns.TrimSpace(name)| <= NAME_LENGTH ==>
        HasSystemTemplate(State(), lower, project, name) || NameTaken(State(), lower, project, AuditColumns.TrimSpace(name))
    {
      if HasSystemTemplate(State(), lower, project, name) {
        return;
      }
      var created := CreateTemplate(lower, id, project, name, true, params);
      assert created ==> id in templates && templates[id] == Template(project, AuditColumns.TrimSpace(name), true);
    }

    method CreateTemplateVersion(id: Id, params: Params) returns (version: Option<int>)
      modifies this
      ensures version == if id in old(templates) then Some(MaxVersion(RowsOf(old(State()), id)) + 1) else None
      ensures State() == if id in old(templates) then InsertVersion(old(State()), id, params) else old(State())
      ensures old(Sound(State())) && Canonical(params) && (id in templates ==> !templates[id].isSystem) ==>
        Undisturbed(old(State()), State()) && (version.Some? ==> GetTemplate(State(), id) == Ok((templates[id], params)))
    {
      if Sound(State()) && Canonical(params) && id in templates && !templates[id].isSystem {
        VersionUndisturbed(State(), id, params);
        VersionReadsBack(State(), id, params);
      }
      if id !in templates {
        return None;
      }
      var rows := if id in versions then versions[id] else map[];
      var next := MaxVersion(rows) + 1;
      versions := versions[id := rows[next := params]];
      version := Some(next);
    }

    method DeleteTemplate(id: Id) returns (r: Result<(), PolicyFailure>)
      modifies this
      ensures r == if Used(old(State()), id) then Err(Conflict) else if id !in old(templates) then Err(NotFound) else Ok(())
      ensures State() == if r.Ok? then RemoveTemplate(old(State()), id) else old(State())
      ensures old(Sound(State())) ==> Undisturbed(old(State()), State())
      ensures r.Ok? ==> GetTemplate(State(), id) == Err(NotFound)
    {
      if Sound(State()) && !Used(State(), id) {
        RemovalUndisturbed(State(), id);
      }
      if Used(State(), id) {
        return Err(Conflict);
      }
      if id !in templates {
        return Err(NotFound);
      }
      templates := templates - {id};
      versions := versions - {id};
      r := Ok(());
    }

    /** A binding is written only for a live secret and an existing version of a template of its project; what comes back is what later reads return. */
    method UpdateBinding(secret: Id, mayWrite: bool, template: Id, version: int, override: Object) returns (r: Result<BindingView, PolicyFailure>)
      requires VersionsOk(State()) && BindingsOk(State())
      modifies this
      ensures r.Err? ==> State() == old(State())
      ensures r.Ok? <==>
        mayWrite && MayHold(old(State()), secret, template) && HasVersion(old(State()), template, version)
        && ResolveEffectivePolicy(old(versions)[template][version], override).Ok?
      ensures r.Ok? ==> BindingsOk(State()) && r == GetSecretBinding(State(), secret)
      ensures r.Ok? ==> State() == PutBinding(old(State()), secret, Binding(template, version, override, r.value.warnings))
      ensures r.Ok? ==> ResolveEffectivePolicy(old(versions)[template][version], override) == Ok(Effective(r.value.policy, r.value.warnings))
    {
      if secret !in secrets || secrets[secret].deleted {
        return Err(NotFound);
      }
      if template in templates {
        TemplatesRead(State(), template);
      }
      var tpl :- GetTemplate(State(), template);
      if secrets[secret].project != Some(tpl.0.project) || !mayWrite {
        return Err(Forbidden);
      }
      if HasVersion(State(), template, version) {
        CanonicalDecodes(versions[template][version]);
      }
      var params :- GetTemplateVersion(State(), template, version);
      var resolved := ResolveEffectivePolicy(params, override);
      if resolved.Err? {
        return Err(Invalid(resolved.error));
      }
      PutReadsBack(State(), secret, template, version, override);
      bindings := bindings[secret := Binding(template, version, override, resolved.value.warnings)];
      var view := GetSecretBinding(State(), secret);
      assert view == Ok(ViewOf(old(State()), template, version, override, resolved.value));
      r := Ok(view.value.(policy := resolved.value.params, warnings := resolved.value.warnings, source := SourceForBinding(override)));
    }
  }
}
