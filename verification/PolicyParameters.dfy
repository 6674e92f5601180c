/**
 The policy parameter schema: tiers and their defaults, and the validation every
 stored or submitted parameter object goes through.
 */
module PolicyParameters {
  import opened Base

  /** The keys of a parameter object; anything else is an unknown key. */
  datatype Key =
    | MaxDurationMinutes | RequireApproval | AllowAutoApprove | RequireReason | MinReasonLength
    | MaxRequestsPerDay | CoolDownMinutes | SingleUse | NotifyOnAccess | RequireConsent
    | Unknown(name: string)

  const POLICY_KEYS: seq<Key> :=
    [MaxDurationMinutes, RequireApproval, AllowAutoApprove, RequireReason, MinReasonLength,
     MaxRequestsPerDay, CoolDownMinutes, SingleUse, NotifyOnAccess, RequireConsent]

  /** A Go value held by an `any`: an integer, a float64 (what JSON numbers decode to), a bool, or something else. */
  datatype Value = IntV(n: int) | FloatV(x: real) | BoolV(b: bool) | OtherV

  type Object = map<Key, Value>

  datatype PolicyError =
    | Missing(key: Key) | BadType(key: Key) | UnknownKey | OutOfRange(key: Key)
    | AutoApproveWithApproval | SingleUseTooLong

  datatype Params = Params(
    maxDuration: int, requireApproval: bool, allowAutoApprove: bool, requireReason: bool, minReason: int,
    maxRequests: int, coolDown: int, singleUse: bool, notifyOnAccess: bool, requireConsent: bool)

  datatype RiskTier = Low | Medium | High | Critical

  datatype Policy = Policy(tier: RiskTier, params: Params)

  const MAX_INT := 0x7FFF_FFFF_FFFF_FFFF

  function IntField(input: Object, key: Key): Result<int, PolicyError> {
    if key !in input then Err(Missing(key))
    else match input[key]
      case IntV(n) => Ok(n)
      case FloatV(x) =>
        if x.Floor as real != x || x < (-MAX_INT - 1) as real || x > (MAX_INT + 1) as real then Err(BadType(key))
        else Ok(x.Floor)
      case _ => Err(BadType(key))
  }

  function BoolField(input: Object, key: Key): Result<bool, PolicyError> {
    if key !in input then Err(Missing(key))
    else if input[key].BoolV? then Ok(input[key].b)
    else Err(BadType(key))
  }

  function CheckBounds(p: Params): Result<(), PolicyError> {
    if p.maxDuration < 1 || p.maxDuration > 1440 then Err(OutOfRange(MaxDurationMinutes))
    else if p.minReason < 0 || p.minReason > 500 then Err(OutOfRange(MinReasonLength))
    else if p.maxRequests < 1 || p.maxRequests > 1000 then Err(OutOfRange(MaxRequestsPerDay))
    else if p.coolDown < 0 || p.coolDown > 1440 then Err(OutOfRange(CoolDownMinutes))
    else Ok(())
  }

  function CheckCrossFields(p: Params): Result<(), PolicyError> {
    if p.allowAutoApprove && p.requireApproval then Err(AutoApproveWithApproval)
    else if p.singleUse && p.maxDuration > 240 then Err(SingleUseTooLong)
    else Ok(())
  }

  predicate AllowedKeys(input: Object) {
    forall k :: k in input ==> !k.Unknown?
  }

  /** A minimum reason length means nothing when no reason is required. */
  function Normalised(p: Params): Params {
    if p.requireReason then p else p.(minReason := 0)
  }

  /** What validation makes of well-typed fields: no minimum length without a reason, then the checks. */
  function Admit(p: Params): Result<Params, PolicyError> {
    var q := Normalised(p);
    var _ :- CheckBounds(q);
    var _ :- CheckCrossFields(q);
    Ok(q)
  }

  function ReadFields(input: Object): Result<Params, PolicyError> {
    var maxDuration :- IntField(input, MaxDurationMinutes);
    var requireApproval :- BoolField(input, RequireApproval);
    var allowAutoApprove :- BoolField(input, AllowAutoApprove);
    var requireReason :- BoolField(input, RequireReason);
    var minReason :- IntField(input, MinReasonLength);
    var maxRequests :- IntField(input, MaxRequestsPerDay);
    var coolDown :- IntField(input, CoolDownMinutes);
    var singleUse :- BoolField(input, SingleUse);
    var notifyOnAccess :- BoolField(input, NotifyOnAccess);
    var requireConsent :- BoolField(input, RequireConsent);
    Ok(Params(maxDuration, requireApproval, allowAutoApprove, requireReason, minReason,
              maxRequests, coolDown, singleUse, notifyOnAccess, requireConsent))
  }

  function ValidateParameters(input: Object): Result<Params, PolicyError> {
    if !AllowedKeys(input) then Err(UnknownKey)
    else
      var p :- ReadFields(input);
      Admit(p)
  }

  /** The parameters validation leaves alone. */
  predicate Canonical(p: Params) {
    && 1 <= p.maxDuration <= 1440 && 0 <= p.minReason <= 500 && 1 <= p.maxRequests <= 1000 && 0 <= p.coolDown <= 1440
    && !(p.allowAutoApprove && p.requireApproval)
    && (p.singleUse ==> p.maxDuration <= 240)
    && (p.requireReason || p.minReason == 0)
  }

  /** Validation admits exactly what is canonical once normalised, and returns that. */
  lemma AdmitsCanonical(p: Params)
    ensures Canonical(Normalised(p)) <==> Admit(p).Ok?
    ensures Admit(p).Ok? ==> Admit(p).value == Normalised(p)
    ensures Canonical(p) <==> Admit(p) == Ok(p)
  {
  }

  /** A field as a Go value. */
  function Field(p: Params, key: Key): Value {
    match key
    case MaxDurationMinutes => IntV(p.maxDuration)
    case RequireApproval => BoolV(p.requireApproval)
    case AllowAutoApprove => BoolV(p.allowAutoApprove)
    case RequireReason => BoolV(p.requireReason)
    case MinReasonLength => IntV(p.minReason)
    case MaxRequestsPerDay => IntV(p.maxRequests)
    case CoolDownMinutes => IntV(p.coolDown)
    case SingleUse => BoolV(p.singleUse)
    case NotifyOnAccess => BoolV(p.notifyOnAccess)
    case RequireConsent => BoolV(p.requireConsent)
    case Unknown(_) => OtherV
  }

  /** A value after a trip through JSON: integers come back as floats. */
  function ThroughJson(v: Value): Value {
    if v.IntV? then FloatV(v.n as real) else v
  }

  /** A parameter struct as the map the server builds from it. */
  function Plain(p: Params): Object {
    map k | k in POLICY_KEYS :: Field(p, k)
  }

  /** The object a parameter struct marshals to, as it is decoded again. */
  function Encode(p: Params): Object {
    map k | k in POLICY_KEYS :: ThroughJson(Field(p, k))
  }

  /** Every integer in p is one a float64 holds exactly. */
  predicate FloatExact(p: Params) {
    Exact(p.maxDuration) && Exact(p.minReason) && Exact(p.maxRequests) && Exact(p.coolDown)
  }

  predicate Exact(n: int) {
    -0x20_0000_0000_0000 <= n <= 0x20_0000_0000_0000
  }

  /** v holds the field's value, as an integer or as a float. */
  predicate SpelledAs(v: Value, field: Value) {
    v == field || v == ThroughJson(field)
  }

  /** An object that holds every field of p and nothing else. */
  ghost predicate Spells(input: Object, p: Params) {
    forall k: Key :: (k in input <==> !k.Unknown?) && (k in input ==> SpelledAs(input[k], Field(p, k)))
  }

  lemma IntSpelling(input: Object, key: Key, n: int)
    requires key in input && SpelledAs(input[key], IntV(n)) && Exact(n)
    ensures IntField(input, key) == Ok(n)
  {
    assert (n as real).Floor == n;
  }

  /** However a field is spelled, validation reads the same parameters. */
  lemma SpellingIsIrrelevant(input: Object, p: Params)
    requires Spells(input, p) && FloatExact(p)
    ensures ReadFields(input) == Ok(p) && ValidateParameters(input) == Admit(p)
  {
    IntSpelling(input, MaxDurationMinutes, p.maxDuration);
    IntSpelling(input, MinReasonLength, p.minReason);
    IntSpelling(input, MaxRequestsPerDay, p.maxRequests);
    IntSpelling(input, CoolDownMinutes, p.coolDown);
    BoolSpellings(input, p);
  }

  lemma BoolSpellings(input: Object, p: Params)
    requires Spells(input, p)
    ensures BoolField(input, RequireApproval) == Ok(p.requireApproval) && BoolField(input, AllowAutoApprove) == Ok(p.allowAutoApprove)
    ensures BoolField(input, RequireReason) == Ok(p.requireReason) && BoolField(input, SingleUse) == Ok(p.singleUse)
    ensures BoolField(input, NotifyOnAccess) == Ok(p.notifyOnAccess) && BoolField(input, RequireConsent) == Ok(p.requireConsent)
  {
    assert RequireApproval in input && AllowAutoApprove in input && RequireReason in input;
    assert SingleUse in input && NotifyOnAccess in input && RequireConsent in input;
  }

  lemma PolicyKeysInOrder()
    ensures |POLICY_KEYS| == 10
    ensures POLICY_KEYS[0] == MaxDurationMinutes && POLICY_KEYS[1] == RequireApproval && POLICY_KEYS[2] == AllowAutoApprove
    ensures POLICY_KEYS[3] == RequireReason && POLICY_KEYS[4] == MinReasonLength && POLICY_KEYS[5] == MaxRequestsPerDay
    ensures POLICY_KEYS[6] == CoolDownMinutes && POLICY_KEYS[7] == SingleUse && POLICY_KEYS[8] == NotifyOnAccess
    ensures POLICY_KEYS[9] == RequireConsent
  {
  }

  lemma PolicyKeysAreAll(k: Key)
    ensures k in POLICY_KEYS <==> !k.Unknown?
  {
    PolicyKeysInOrder();
  }

  lemma EncodeSpells(p: Params)
    ensures Spells(Encode(p), p)
  {
    forall k: Key ensures (k in Encode(p) <==> !k.Unknown?) && (k in Encode(p) ==> SpelledAs(Encode(p)[k], Field(p, k))) {
      PolicyKeysAreAll(k);
    }
  }

  /** Whatever validation accepts is canonical. */
  lemma ValidatedIsCanonical(input: Object)
    ensures ValidateParameters(input).Ok? ==> Canonical(ValidateParameters(input).value)
  {
    if AllowedKeys(input) && ReadFields(input).Ok? {
      AdmitsCanonical(ReadFields(input).value);
    }
  }

  /** Validation takes its own result back unchanged: it accepts, as it is, exactly what is canonical. */
  lemma ValidationIsIdempotent(p: Params)
    requires FloatExact(p)
    ensures ValidateParameters(Encode(p)) == Ok(p) <==> Canonical(p)
  {
    EncodeSpells(p);
    SpellingIsIrrelevant(Encode(p), p);
    AdmitsCanonical(p);
  }

  // ---- What validation accepts -------------------------------------------------------

  /** The value is the integer: a Go one, or a float64 with no fraction and within an int64. */
  predicate HoldsInt(v: Value, n: int) {
    v == IntV(n) || (v.FloatV? && v.x == n as real && -0x8000_0000_0000_0000 <= n <= 0x8000_0000_0000_0000)
  }

  predicate HasInt(input: Object, key: Key, n: int) {
    key in input && HoldsInt(input[key], n)
  }

  predicate HasBool(input: Object, key: Key, b: bool) {
    key in input && input[key] == BoolV(b)
  }

  /** An object with exactly the ten keys, each of its type, that holds p. */
  ghost predicate Submits(input: Object, p: Params) {
    && (forall k: Key :: k in input ==> !k.Unknown?)
    && HasInt(input, MaxDurationMinutes, p.maxDuration) && HasBool(input, RequireApproval, p.requireApproval)
    && HasBool(input, AllowAutoApprove, p.allowAutoApprove) && HasBool(input, RequireReason, p.requireReason)
    && HasInt(input, MinReasonLength, p.minReason) && HasInt(input, MaxRequestsPerDay, p.maxRequests)
    && HasInt(input, CoolDownMinutes, p.coolDown) && HasBool(input, SingleUse, p.singleUse)
    && HasBool(input, NotifyOnAccess, p.notifyOnAccess) && HasBool(input, RequireConsent, p.requireConsent)
  }

  lemma IntFieldIff(input: Object, key: Key, n: int)
    ensures IntField(input, key) == Ok(n) <==> HasInt(input, key, n)
    ensures key !in input <==> IntField(input, key) == Err(Missing(key))
  {
    if key in input && input[key].FloatV? && input[key].x == n as real {
      assert input[key].x.Floor == n;
    }
  }

  lemma BoolFieldIff(input: Object, key: Key, b: bool)
    ensures BoolField(input, key) == Ok(b) <==> HasBool(input, key, b)
    ensures key !in input <==> BoolField(input, key) == Err(Missing(key))
  {
  }

  lemma ReadsWhatIsSubmitted(input: Object, p: Params)
    requires AllowedKeys(input)
    ensures ReadFields(input) == Ok(p) <==> Submits(input, p)
  {
    IntFieldIff(input, MaxDurationMinutes, p.maxDuration);
    BoolFieldIff(input, RequireApproval, p.requireApproval);
    BoolFieldIff(input, AllowAutoApprove, p.allowAutoApprove);
    BoolFieldIff(input, RequireReason, p.requireReason);
    IntFieldIff(input, MinReasonLength, p.minReason);
    IntFieldIff(input, MaxRequestsPerDay, p.maxRequests);
    IntFieldIff(input, CoolDownMinutes, p.coolDown);
    BoolFieldIff(input, SingleUse, p.singleUse);
    BoolFieldIff(input, NotifyOnAccess, p.notifyOnAccess);
    BoolFieldIff(input, RequireConsent, p.requireConsent);
  }

  /**
   Validation accepts an object exactly when it holds the ten fields and nothing else, each
   of its type and within its bounds and cross-field rules; it returns them, without a
   minimum reason length when no reason is required.
   */
  lemma ValidatesIff(input: Object, q: Params)
    ensures ValidateParameters(input) == Ok(q) <==>
      exists p :: Submits(input, p) && q == (if p.requireReason then p else p.(minReason := 0))
                  && 1 <= q.maxDuration <= 1440 && 0 <= q.minReason <= 500 && 1 <= q.maxRequests <= 1000 && 0 <= q.coolDown <= 1440
                  && !(q.allowAutoApprove && q.requireApproval) && (q.singleUse ==> q.maxDuration <= 240)
  {
    if AllowedKeys(input) {
      if ReadFields(input).Ok? {
        ReadsWhatIsSubmitted(input, ReadFields(input).value);
        AdmitsCanonical(ReadFields(input).value);
      }
      forall p | Submits(input, p) ensures ReadFields(input) == Ok(p) {
        ReadsWhatIsSubmitted(input, p);
      }
    }
  }

  function DeriveRiskTier(credentialType: string): RiskTier {
    if credentialType == "api_key" then Low
    else if credentialType in {"db_credential", "ssh_key", "oauth_token"} then Medium
    else if credentialType in {"cloud_credential", "personal_session"} then High
    else Medium
  }

  function DefaultsForTier(tier: RiskTier): Params {
    match tier
    case Low => Params(480, false, true, false, 0, 50, 0, false, false, false)
    case Medium => Params(60, true, false, true, 10, 20, 5, false, false, false)
    case High => Params(15, true, false, true, 20, 10, 15, true, true, true)
    case Critical => Params(5, true, false, true, 20, 5, 30, true, true, true)
  }

  function DefaultParameters(credentialType: string): Params {
    DefaultsForTier(DeriveRiskTier(credentialType))
  }

  /** Every tier default is canonical. */
  lemma DefaultsAreCanonical(tier: RiskTier)
    ensures Canonical(DefaultsForTier(tier))
  {
  }

  /** What applies to a credential nobody made a policy for. */
  lemma DefaultsByType()
    ensures DefaultParameters("api_key") == Params(480, false, true, false, 0, 50, 0, false, false, false)
    ensures forall t :: t in {"db_credential", "ssh_key", "oauth_token"} ==>
      DefaultParameters(t) == Params(60, true, false, true, 10, 20, 5, false, false, false)
    ensures forall t :: t in {"cloud_credential", "personal_session"} ==>
      DefaultParameters(t) == Params(15, true, false, true, 20, 10, 15, true, true, true)
    ensures forall t :: t !in {"api_key", "db_credential", "ssh_key", "oauth_token", "cloud_credential", "personal_session"} ==>
      DefaultParameters(t) == Params(60, true, false, true, 10, 20, 5, false, false, false)
    ensures DefaultsForTier(Critical) == Params(5, true, false, true, 20, 5, 30, true, true, true)
  {
  }

  function ToPolicy(p: Params, credentialType: string): Policy {
    Policy(DeriveRiskTier(credentialType), p)
  }

  /** The applied_policy column: no row, text that is not an object, or an object. */
  datatype Snapshot = NoRow | NotAnObject | Stored(content: Object)

  /** The policy later steps enforce for a request, from its snapshot. */
  function EffectivePolicyForRequest(snapshot: Snapshot, credentialType: string): Policy {
    var fallback := ToPolicy(DefaultParameters(credentialType), credentialType);
    if !snapshot.Stored? then fallback
    else match ValidateParameters(snapshot.content)
      case Ok(p) => ToPolicy(p, credentialType)
      case Err(_) => fallback
  }

  /** A snapshot of canonical parameters is read as the policy they make. */
  lemma SnapshotIsFaithful(applied: Params, credentialType: string)
    requires Canonical(applied)
    ensures EffectivePolicyForRequest(Stored(Encode(applied)), credentialType) == ToPolicy(applied, credentialType)
  {
    ValidationIsIdempotent(applied);
  }

  /** What cannot be read or is not canonical is judged by the default of the type. */
  lemma UnreadableFallsBack(snapshot: Snapshot, credentialType: string)
    requires snapshot.Stored? ==> ValidateParameters(snapshot.content).Err?
    ensures EffectivePolicyForRequest(snapshot, credentialType) == Policy(DeriveRiskTier(credentialType), DefaultParameters(credentialType))
  {
  }
}
