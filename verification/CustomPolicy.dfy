/**
 Custom policies: layers (project, then secret) applied one after the other on top of
 the defaults of a credential type.
 */
module CustomPolicy {
  import opened Base
  import opened PolicyParameters

  /** The fields of a custom policy that resolution reads; 0 and None mean "not set". */
  datatype Layer = Layer(approvers: seq<string>, maxDuration: int, autoApprove: Option<bool>, block: bool,
                         requireReason: Option<bool>, minReason: int)

  predicate Denies(c: Layer) {
    c.block || c.autoApprove == Some(false)
  }

  predicate Allows(c: Layer) {
    !c.block && c.autoApprove == Some(true)
  }

  /** The limits a layer tightens, and whether a reason is required. */
  function Tightened(c: Layer, base: Params): Params {
    base.(maxDuration := if 0 < c.maxDuration < base.maxDuration then c.maxDuration else base.maxDuration,
          minReason := if c.minReason > base.minReason then c.minReason else base.minReason,
          requireReason := if c.requireReason.Some? then c.requireReason.value else base.requireReason)
  }

  function Applied(c: Layer, base: Params): Params {
    Tightened(c, base).(requireApproval := base.requireApproval || Denies(c),
                        allowAutoApprove := if Denies(c) then false else base.allowAutoApprove || Allows(c))
  }

  method ApplyTo(c: Layer, base: Params) returns (merged: Params)
    ensures merged == Applied(c, base)
  {
    merged := Tighten(c, base);
    if c.autoApprove.Some? {
      merged := merged.(allowAutoApprove := c.autoApprove.value);
      if !c.autoApprove.value {
        merged := merged.(requireApproval := true);
      }
    }
    if c.block {
      merged := merged.(allowAutoApprove := false);
      merged := merged.(requireApproval := true);
    }
  }

  method Tighten(c: Layer, base: Params) returns (merged: Params)
    ensures merged == Tightened(c, base)
  {
    merged := base;
    if c.maxDuration > 0 && c.maxDuration < base.maxDuration {
      merged := merged.(maxDuration := c.maxDuration);
    }
    if c.minReason > base.minReason {
      merged := merged.(minReason := c.minReason);
    }
    if c.requireReason.Some? {
      merged := merged.(requireReason := c.requireReason.value);
    }
  }

  /** Layers applied from the first to the last. */
  function Fold(base: Params, layers: seq<Layer>): Params {
    if layers == [] then base else Applied(layers[|layers| - 1], Fold(base, layers[..|layers| - 1]))
  }

  lemma FoldOneMore(base: Params, layers: seq<Layer>, c: Layer)
    ensures Fold(base, layers + [c]) == Applied(c, Fold(base, layers))
  {
    var all := layers + [c];
    assert all[..|all| - 1] == layers && all[|all| - 1] == c;
  }

  // ---- What any number of layers amounts to ------------------------------------

  /** d is the least of the base duration and the positive caps. */
  ghost predicate IsLeastCap(d: int, base: Params, layers: seq<Layer>) {
    && d <= base.maxDuration
    && (forall c :: c in layers && c.maxDuration > 0 ==> d <= c.maxDuration)
    && (d == base.maxDuration || exists c :: c in layers && c.maxDuration > 0 && d == c.maxDuration)
  }

  /** n is the greatest of the base minimum and the layers'. */
  ghost predicate IsGreatestMinimum(n: int, base: Params, layers: seq<Layer>) {
    && n >= base.minReason
    && (forall c :: c in layers ==> n >= c.minReason)
    && (n == base.minReason || exists c :: c in layers && n == c.minReason)
  }

  lemma Unfold(layers: seq<Layer>)
    requires layers != []
    ensures forall c :: c in layers <==> c in layers[..|layers| - 1] || c == layers[|layers| - 1]
  {
    assert layers == layers[..|layers| - 1] + [layers[|layers| - 1]];
  }

  lemma {:induction false} DurationIsLeastCap(base: Params, layers: seq<Layer>)
    ensures IsLeastCap(Fold(base, layers).maxDuration, base, layers)
  {
    if layers != [] {
      DurationIsLeastCap(base, layers[..|layers| - 1]);
      Unfold(layers);
    }
  }

  lemma {:induction false} ReasonIsGreatestMinimum(base: Params, layers: seq<Layer>)
    ensures IsGreatestMinimum(Fold(base, layers).minReason, base, layers)
  {
    if layers != [] {
      ReasonIsGreatestMinimum(base, layers[..|layers| - 1]);
      Unfold(layers);
    }
  }

  /** Duration and minimum reason length do not depend on the order of the layers, nor on repetition. */
  lemma OrderIsIrrelevant(base: Params, layers: seq<Layer>, other: seq<Layer>)
    requires forall c :: c in layers <==> c in other
    ensures Fold(base, layers).maxDuration == Fold(base, other).maxDuration
    ensures Fold(base, layers).minReason == Fold(base, other).minReason
    ensures Fold(base, layers).requireApproval == Fold(base, other).requireApproval
    ensures AutoApproved(Fold(base, layers)) == AutoApproved(Fold(base, other))
  {
    DurationIsLeastCap(base, layers);
    DurationIsLeastCap(base, other);
    ReasonIsGreatestMinimum(base, layers);
    ReasonIsGreatestMinimum(base, other);
    ApprovalIff(base, layers);
    ApprovalIff(base, other);
  }

  /** The condition under which a new request starts out approved. */
  predicate AutoApproved(p: Params) {
    p.allowAutoApprove && !p.requireApproval
  }

  /** Approval is required iff the base or any layer asks for it; auto-approval needs the base and every layer to let it through and one to allow it. */
  lemma {:induction false} ApprovalIff(base: Params, layers: seq<Layer>)
    ensures Fold(base, layers).requireApproval <==> base.requireApproval || exists c :: c in layers && Denies(c)
    ensures AutoApproved(Fold(base, layers)) <==>
      && !base.requireApproval && (forall c :: c in layers ==> !Denies(c))
      && (base.allowAutoApprove || exists c :: c in layers && Allows(c))
  {
    if layers != [] {
      ApprovalIff(base, layers[..|layers| - 1]);
      Unfold(layers);
    }
  }

  /** Once required, approval stays required whatever layers follow. */
  lemma {:induction false} ApprovalStaysRequired(base: Params, layers: seq<Layer>, n: nat)
    requires n <= |layers| && Fold(base, layers[..n]).requireApproval
    ensures Fold(base, layers).requireApproval
  {
    ApprovalIff(base, layers);
    ApprovalIff(base, layers[..n]);
  }

  /** The last layer that says whether a reason is required decides it. */
  function ReasonSetting(base: bool, layers: seq<Layer>): bool {
    if layers == [] then base
    else if layers[|layers| - 1].requireReason.Some? then layers[|layers| - 1].requireReason.value
    else ReasonSetting(base, layers[..|layers| - 1])
  }

  lemma {:induction false} LastReasonSettingWins(base: Params, layers: seq<Layer>)
    ensures Fold(base, layers).requireReason == ReasonSetting(base.requireReason, layers)
  {
    if layers != [] {
      LastReasonSettingWins(base, layers[..|layers| - 1]);
    }
  }

  /** Fields no custom policy touches. */
  lemma {:induction false} LayersLeaveTheRest(base: Params, layers: seq<Layer>)
    ensures var p := Fold(base, layers);
      p.maxRequests == base.maxRequests && p.coolDown == base.coolDown && p.singleUse == base.singleUse
      && p.notifyOnAccess == base.notifyOnAccess && p.requireConsent == base.requireConsent
  {
    if layers != [] {
      LayersLeaveTheRest(base, layers[..|layers| - 1]);
    }
  }

  /** The last layer that denies or allows auto-approval decides it. */
  function AutoSetting(base: bool, layers: seq<Layer>): bool {
    if layers == [] then base
    else
      var c := layers[|layers| - 1];
      if Denies(c) then false else if Allows(c) then true else AutoSetting(base, layers[..|layers| - 1])
  }

  lemma {:induction false} LastAutoSettingWins(base: Params, layers: seq<Layer>)
    ensures Fold(base, layers).allowAutoApprove == AutoSetting(base.allowAutoApprove, layers)
  {
    if layers != [] {
      LastAutoSettingWins(base, layers[..|layers| - 1]);
    }
  }

  /** No layer has a lower cap, a greater minimum, a last word on reasons or auto-approval that differs, or a requirement that is new. */
  predicate Redundant(base: Params, layers: seq<Layer>) {
    && (forall c :: c in layers && c.maxDuration > 0 ==> c.maxDuration >= base.maxDuration)
    && (forall c :: c in layers ==> c.minReason <= base.minReason)
    && ReasonSetting(base.requireReason, layers) == base.requireReason
    && AutoSetting(base.allowAutoApprove, layers) == base.allowAutoApprove
    && (base.requireApproval || forall c :: c in layers ==> !Denies(c))
  }

  /** Layers fold to the parameters they were laid on exactly when they are redundant. */
  lemma FoldIsBaseIff(base: Params, layers: seq<Layer>)
    ensures Fold(base, layers) == base <==> Redundant(base, layers)
  {
    DurationIsLeastCap(base, layers);
    ReasonIsGreatestMinimum(base, layers);
    LastReasonSettingWins(base, layers);
    LastAutoSettingWins(base, layers);
    ApprovalIff(base, layers);
    LayersLeaveTheRest(base, layers);
  }

  /** Layers leave it to the same side whether a request starts out approved exactly when none denies what was granted, and none allows what lacked nothing else. */
  lemma FoldApprovesAlikeIff(base: Params, layers: seq<Layer>)
    ensures AutoApproved(Fold(base, layers)) == AutoApproved(base) <==>
      if AutoApproved(base) then forall c :: c in layers ==> !Denies(c)
      else base.requireApproval || (exists c :: c in layers && Denies(c)) || forall c :: c in layers ==> !Allows(c)
  {
    ApprovalIff(base, layers);
  }

  // ---- Resolving a secret -------------------------------------------------------

  /** A secret's row with the two configurations that decode; one that is absent or does not decode is None. */
  datatype SecretRow = SecretRow(config: Option<Layer>, projectConfig: Option<Layer>)

  function Layers(row: SecretRow): seq<Layer> {
    (if row.projectConfig.Some? then [row.projectConfig.value] else [])
    + (if row.config.Some? then [row.config.value] else [])
  }

  function Approvers(row: SecretRow): seq<string> {
    if row.config.Some? && row.config.value.approvers != [] then row.config.value.approvers
    else if row.projectConfig.Some? then row.projectConfig.value.approvers
    else []
  }

  /** The project's layer, then the secret's; the secret's approvers win when it names any. */
  method Resolve(row: Option<SecretRow>, defaults: Params) returns (policy: Params, approvers: seq<string>, found: bool)
    ensures found == row.Some?
    ensures row.None? ==> policy == defaults && approvers == []
    ensures row.Some? ==> policy == Fold(defaults, Layers(row.value))
    ensures row.Some? ==> approvers == Approvers(row.value)
    ensures row.Some? && row.value.config.Some? && row.value.config.value.approvers != [] ==> approvers == row.value.config.value.approvers
    ensures row.Some? && (row.value.config.None? || row.value.config.value.approvers == []) ==>
      approvers == if row.value.projectConfig.Some? then row.value.projectConfig.value.approvers else []
  {
    policy, approvers, found := defaults, [], row.Some?;
    if row.None? {
      return;
    }
    var layers := [];
    if row.value.projectConfig.Some? {
      var pc := row.value.projectConfig.value;
      policy := ApplyTo(pc, policy);
      approvers := pc.approvers;
      FoldOneMore(defaults, layers, pc);
      layers := layers + [pc];
    }
    if row.value.config.Some? {
      var sc := row.value.config.value;
      policy := ApplyTo(sc, policy);
      if sc.approvers != [] {
        approvers := sc.approvers;
      }
      FoldOneMore(defaults, layers, sc);
      layers := layers + [sc];
    }
    assert layers == Layers(row.value);
  }
}
