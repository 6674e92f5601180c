/**
 Overrides of a policy template: the server's merge and its warnings, and the
 dashboard's minimal payload for a desired policy.
 */
module PolicyOverride {
  import opened Base
  import opened PolicyParameters

  // ---- Merging an override ----------------------------------------------------

  datatype Effective = Effective(params: Params, warnings: seq<Key>)

  function ResolveEffectivePolicy(template: Params, override: Object): Result<Effective, PolicyError> {
    if !AllowedKeys(override) then Err(UnknownKey)
    else
      var merged :- ValidateParameters(Plain(template) + override);
      Ok(Effective(merged, WeakWarnings(template, merged)))
  }

  /** The merge as the server runs it, one override key at a time in any order. */
  method MergeOverride(template: Params, override: Object) returns (merged: Object, unknown: bool)
    ensures unknown <==> !AllowedKeys(override)
    ensures !unknown ==> merged == Plain(template) + override
  {
    merged := Plain(template);
    unknown := false;
    LaidAll(Plain(template), override);
    var rest := override.Keys;
    while rest != {}
      invariant rest <= override.Keys
      invariant forall k :: k in override.Keys - rest ==> !k.Unknown?
      invariant merged == Laid(Plain(template), override, rest)
      decreases rest
    {
      var k :| k in rest;
      PolicyKeysAreAll(k);
      if k !in Plain(template) {
        return merged, true;
      }
      LaidOneMore(Plain(template), override, rest, k);
      merged := merged[k := override[k]];
      rest := rest - {k};
    }
  }

  /** The override laid over a base, but for the keys that are left. */
  ghost function Laid(base: Object, override: Object, rest: set<Key>): Object {
    base + (override - rest)
  }

  lemma LaidOneMore(base: Object, override: Object, rest: set<Key>, k: Key)
    requires k in rest && k in override
    ensures Laid(base, override, rest)[k := override[k]] == Laid(base, override, rest - {k})
  {
  }

  lemma LaidAll(base: Object, override: Object)
    ensures Laid(base, override, {}) == base + override && Laid(base, override, override.Keys) == base
  {
    assert override - {} == override && override - override.Keys == map[];
  }

  // ---- Weakening --------------------------------------------------------------

  /** Whether e is weaker than t in one field. */
  predicate Weakened(key: Key, t: Params, e: Params) {
    match key
    case MaxDurationMinutes => e.maxDuration > t.maxDuration
    case RequireApproval => t.requireApproval && !e.requireApproval
    case AllowAutoApprove => !t.allowAutoApprove && e.allowAutoApprove
    case RequireReason => t.requireReason && !e.requireReason
    case MinReasonLength => e.minReason < t.minReason
    case MaxRequestsPerDay => e.maxRequests > t.maxRequests
    case CoolDownMinutes => e.coolDown < t.coolDown
    case SingleUse => t.singleUse && !e.singleUse
    case NotifyOnAccess => t.notifyOnAccess && !e.notifyOnAccess
    case RequireConsent => t.requireConsent && !e.requireConsent
    case Unknown(_) => false
  }

  /** The weakened ones among the first n policy keys, in their order. */
  function WarningsUpTo(t: Params, e: Params, n: nat): seq<Key>
    requires n <= |POLICY_KEYS|
  {
    if n == 0 then []
    else if Weakened(POLICY_KEYS[n - 1], t, e) then WarningsUpTo(t, e, n - 1) + [POLICY_KEYS[n - 1]]
    else WarningsUpTo(t, e, n - 1)
  }

  function WeakWarnings(t: Params, e: Params): seq<Key> {
    WarningsUpTo(t, e, |POLICY_KEYS|)
  }

  method CompareFirstFive(t: Params, e: Params) returns (warnings: seq<Key>)
    ensures warnings == WarningsUpTo(t, e, 5)
  {
    warnings := [];
    if e.maxDuration > t.maxDuration { warnings := warnings + [MaxDurationMinutes]; }
    assert warnings == WarningsUpTo(t, e, 1) by { WarningsOneMore(t, e, 0, MaxDurationMinutes); }
    if t.requireApproval && !e.requireApproval { warnings := warnings + [RequireApproval]; }
    assert warnings == WarningsUpTo(t, e, 2) by { WarningsOneMore(t, e, 1, RequireApproval); }
    if !t.allowAutoApprove && e.allowAutoApprove { warnings := warnings + [AllowAutoApprove]; }
    assert warnings == WarningsUpTo(t, e, 3) by { WarningsOneMore(t, e, 2, AllowAutoApprove); }
    if t.requireReason && !e.requireReason { warnings := warnings + [RequireReason]; }
    assert warnings == WarningsUpTo(t, e, 4) by { WarningsOneMore(t, e, 3, RequireReason); }
    if e.minReason < t.minReason { warnings := warnings + [MinReasonLength]; }
    assert warnings == WarningsUpTo(t, e, 5) by { WarningsOneMore(t, e, 4, MinReasonLength); }
  }

  /** The comparison, field by field; the server and the dashboard run the same one. */
  method CompareWeakening(t: Params, e: Params) returns (warnings: seq<Key>)
    ensures warnings == WeakWarnings(t, e)
  {
    warnings := CompareFirstFive(t, e);
    if e.maxRequests > t.maxRequests { warnings := warnings + [MaxRequestsPerDay]; }
    assert warnings == WarningsUpTo(t, e, 6) by { WarningsOneMore(t, e, 5, MaxRequestsPerDay); }
    if e.coolDown < t.coolDown { warnings := warnings + [CoolDownMinutes]; }
    assert warnings == WarningsUpTo(t, e, 7) by { WarningsOneMore(t, e, 6, CoolDownMinutes); }
    if t.singleUse && !e.singleUse { warnings := warnings + [SingleUse]; }
    assert warnings == WarningsUpTo(t, e, 8) by { WarningsOneMore(t, e, 7, SingleUse); }
    if t.notifyOnAccess && !e.notifyOnAccess { warnings := warnings + [NotifyOnAccess]; }
    assert warnings == WarningsUpTo(t, e, 9) by { WarningsOneMore(t, e, 8, NotifyOnAccess); }
    if t.requireConsent && !e.requireConsent { warnings := warnings + [RequireConsent]; }
    assert warnings == WarningsUpTo(t, e, 10) by { WarningsOneMore(t, e, 9, RequireConsent); }
  }

  lemma WarningsOneMore(t: Params, e: Params, n: nat, key: Key)
    requires n < |POLICY_KEYS| && POLICY_KEYS[n] == key
    ensures WarningsUpTo(t, e, n + 1) == if Weakened(key, t, e) then WarningsUpTo(t, e, n) + [key] else WarningsUpTo(t, e, n)
  {
  }

  lemma {:induction false} WarningsHold(t: Params, e: Params, n: nat, key: Key)
    requires n <= |POLICY_KEYS|
    ensures key in WarningsUpTo(t, e, n) <==> key in POLICY_KEYS[..n] && Weakened(key, t, e)
  {
    if n > 0 {
      WarningsHold(t, e, n - 1, key);
      assert POLICY_KEYS[..n] == POLICY_KEYS[..n - 1] + [POLICY_KEYS[n - 1]];
    }
  }

  /** The ten-field order: s allows nothing that t does not. */
  predicate AtLeastAsStrict(s: Params, t: Params) {
    && s.maxDuration <= t.maxDuration && s.maxRequests <= t.maxRequests
    && s.minReason >= t.minReason && s.coolDown >= t.coolDown
    && (s.allowAutoApprove ==> t.allowAutoApprove)
    && (t.requireApproval ==> s.requireApproval) && (t.requireReason ==> s.requireReason)
    && (t.singleUse ==> s.singleUse) && (t.notifyOnAccess ==> s.notifyOnAccess) && (t.requireConsent ==> s.requireConsent)
  }

  lemma StrictnessIsPartialOrder(a: Params, b: Params, c: Params)
    ensures AtLeastAsStrict(a, a)
    ensures AtLeastAsStrict(a, b) && AtLeastAsStrict(b, a) ==> a == b
    ensures AtLeastAsStrict(a, b) && AtLeastAsStrict(b, c) ==> AtLeastAsStrict(a, c)
  {
  }

  /** Each tier's default is at least as strict as that of the tier below. */
  lemma TiersGetStricter()
    ensures AtLeastAsStrict(DefaultsForTier(Medium), DefaultsForTier(Low))
    ensures AtLeastAsStrict(DefaultsForTier(High), DefaultsForTier(Medium))
    ensures AtLeastAsStrict(DefaultsForTier(Critical), DefaultsForTier(High))
  {
  }

  /** The warnings name exactly the weakened fields; there are none iff the policy is at least as strict. */
  lemma WarningsAreExact(t: Params, e: Params, key: Key)
    ensures key in WeakWarnings(t, e) <==> Weakened(key, t, e)
    ensures WeakWarnings(t, e) == [] <==> AtLeastAsStrict(e, t)
  {
    forall k: Key ensures k in WeakWarnings(t, e) <==> Weakened(k, t, e) {
      WarningsHold(t, e, |POLICY_KEYS|, k);
      PolicyKeysAreAll(k);
      assert POLICY_KEYS[..|POLICY_KEYS|] == POLICY_KEYS;
    }
    if WeakWarnings(t, e) != [] {
      var k := WeakWarnings(t, e)[0];
      assert k in WeakWarnings(t, e) && Weakened(k, t, e);
    } else {
      NothingWeakened(t, e);
    }
  }

  lemma NothingWeakened(t: Params, e: Params)
    requires forall k: Key :: !Weakened(k, t, e)
    ensures AtLeastAsStrict(e, t)
  {
    assert !Weakened(MaxDurationMinutes, t, e) && !Weakened(RequireApproval, t, e) && !Weakened(AllowAutoApprove, t, e);
    assert !Weakened(RequireReason, t, e) && !Weakened(MinReasonLength, t, e) && !Weakened(MaxRequestsPerDay, t, e);
    assert !Weakened(CoolDownMinutes, t, e) && !Weakened(SingleUse, t, e) && !Weakened(NotifyOnAccess, t, e);
    assert !Weakened(RequireConsent, t, e);
  }

  // ---- The dashboard's payload ------------------------------------------------

  /** The fields in which desired differs from base. */
  function Diff(base: Params, desired: Params): Object {
    DiffOn(POLICY_KEYS, base, desired)
  }

  /** The payload; an override that is switched off sends nothing. */
  method BuildOverridePayload(base: Params, desired: Params, enabled: bool) returns (partial: Object)
    ensures partial == if enabled then Diff(base, desired) else map[]
  {
    partial := map[];
    if !enabled {
      return;
    }
    for i := 0 to |POLICY_KEYS|
      invariant partial == DiffOn(POLICY_KEYS[..i], base, desired)
    {
      var key := POLICY_KEYS[i];
      assert POLICY_KEYS[..i + 1] == POLICY_KEYS[..i] + [key];
      DiffOneMore(POLICY_KEYS[..i], key, base, desired);
      if Field(desired, key) != Field(base, key) {
        partial := partial[key := Field(desired, key)];
      }
    }
    assert POLICY_KEYS[..|POLICY_KEYS|] == POLICY_KEYS;
  }

  /** The fields among some keys that differ. */
  function DiffOn(keys: seq<Key>, base: Params, desired: Params): Object {
    map k | k in keys && Field(desired, k) != Field(base, k) :: Field(desired, k)
  }

  lemma DiffOneMore(keys: seq<Key>, key: Key, base: Params, desired: Params)
    ensures DiffOn(keys + [key], base, desired) ==
      if Field(desired, key) != Field(base, key) then DiffOn(keys, base, desired)[key := Field(desired, key)]
      else DiffOn(keys, base, desired)
  {
  }

  /** The payload as the server decodes it. */
  function Received(payload: Object): Object {
    map k | k in payload :: ThroughJson(payload[k])
  }

  lemma MergedSpells(base: Params, desired: Params)
    ensures Spells(Plain(base) + Received(Diff(base, desired)), desired)
  {
    var merged := Plain(base) + Received(Diff(base, desired));
    forall k: Key ensures (k in merged <==> !k.Unknown?) && (k in merged ==> SpelledAs(merged[k], Field(desired, k))) {
      PolicyKeysAreAll(k);
    }
  }

  /** Sending the difference makes the server validate exactly the desired policy, whatever the two policies are. */
  lemma DiffThenMerge(base: Params, desired: Params)
    requires FloatExact(desired)
    ensures var r := ResolveEffectivePolicy(base, Received(Diff(base, desired)));
      if Canonical(Normalised(desired)) then r == Ok(Effective(Normalised(desired), WeakWarnings(base, Normalised(desired)))) else r.Err?
    ensures var r := ResolveEffectivePolicy(base, Received(Diff(base, desired)));
      (r.Ok? && r.value.params == desired) <==> Canonical(desired)
  {
    MergedSpells(base, desired);
    SpellingIsIrrelevant(Plain(base) + Received(Diff(base, desired)), desired);
    AdmitsCanonical(desired);
    forall k | k in Diff(base, desired) ensures !k.Unknown? {
      PolicyKeysAreAll(k);
    }
  }

  lemma SameFields(p: Params, q: Params)
    requires forall k: Key :: Field(p, k) == Field(q, k)
    ensures p == q
  {
    assert Field(p, MaxDurationMinutes) == Field(q, MaxDurationMinutes) && Field(p, RequireApproval) == Field(q, RequireApproval);
    assert Field(p, AllowAutoApprove) == Field(q, AllowAutoApprove) && Field(p, RequireReason) == Field(q, RequireReason);
    assert Field(p, MinReasonLength) == Field(q, MinReasonLength) && Field(p, MaxRequestsPerDay) == Field(q, MaxRequestsPerDay);
    assert Field(p, CoolDownMinutes) == Field(q, CoolDownMinutes) && Field(p, SingleUse) == Field(q, SingleUse);
    assert Field(p, NotifyOnAccess) == Field(q, NotifyOnAccess) && Field(p, RequireConsent) == Field(q, RequireConsent);
  }

  /** The payload is empty exactly when nothing changed, and the dashboard's own merge of it gives the desired policy. */
  lemma DiffIsExact(base: Params, desired: Params)
    ensures Diff(base, desired) == map[] <==> base == desired
    ensures Plain(base) + Diff(base, desired) == Plain(desired)
  {
    if Diff(base, desired) == map[] {
      forall k: Key ensures Field(base, k) == Field(desired, k) {
        PolicyKeysAreAll(k);
        assert k !in Diff(base, desired);
      }
      SameFields(base, desired);
    }
  }

  predicate Reaches(base: Params, override: Object, desired: Params) {
    var r := ResolveEffectivePolicy(base, override);
    r.Ok? && r.value.params == desired
  }

  /** No override with fewer keys reaches the desired policy, except for a minimum length that no longer matters. */
  lemma DiffIsLeast(base: Params, desired: Params, override: Object, k: Key)
    ensures Reaches(base, override, desired) && k in Diff(base, desired) && (k != MinReasonLength || desired.requireReason) ==> k in override
  {
    var merged := Plain(base) + override;
    if Reaches(base, override, desired) && k in Diff(base, desired) && (k != MinReasonLength || desired.requireReason) {
      if k !in override {
        assert merged[k] == Field(base, k);
        FieldSurvives(merged, desired, k, base);
      }
    }
  }

  /** A field read from the server's own struct comes out as it went in. */
  lemma FieldSurvives(input: Object, out: Params, k: Key, base: Params)
    requires ValidateParameters(input) == Ok(out)
    requires k in POLICY_KEYS && k in input && input[k] == Field(base, k)
    requires k != MinReasonLength || out.requireReason
    ensures Field(out, k) == Field(base, k)
  {
    AdmitsCanonical(ReadFields(input).value);
    PolicyKeysAreAll(k);
  }

  /**
   The server warns about what it stores, the dashboard about what was typed. They
   differ exactly when the reason is dropped and the typed minimum length compares
   with the base otherwise than 0 does.
   */
  lemma WarningsAgreeIff(base: Params, desired: Params)
    ensures WeakWarnings(base, Normalised(desired)) == WeakWarnings(base, desired)
      <==> (desired.requireReason || (0 < base.minReason <==> desired.minReason < base.minReason))
  {
    var server := Normalised(desired);
    WarningsAreExact(base, server, MinReasonLength);
    WarningsAreExact(base, desired, MinReasonLength);
    if desired.requireReason || (0 < base.minReason <==> desired.minReason < base.minReason) {
      SameWarnings(base, server, desired, |POLICY_KEYS|);
    }
  }

  lemma {:induction false} SameWarnings(t: Params, e: Params, f: Params, n: nat)
    requires n <= |POLICY_KEYS|
    requires forall k: Key :: Weakened(k, t, e) == Weakened(k, t, f)
    ensures WarningsUpTo(t, e, n) == WarningsUpTo(t, f, n)
  {
    if n > 0 {
      SameWarnings(t, e, f, n - 1);
      assert Weakened(POLICY_KEYS[n - 1], t, e) == Weakened(POLICY_KEYS[n - 1], t, f);
    }
  }
}
