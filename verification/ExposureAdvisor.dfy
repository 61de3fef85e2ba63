/** The exposure of a data model through API keys, and the advice about it
    (api/crates/control-plane/src/model_definition.rs). The keys and grants that the repository returns are parameters;
    that a key has not expired is a flag on it. */
module ExposureAdvisor {
  import opened Wrappers
  import opened Text

  datatype ModelStatus = Draft | Published | Disabled | Broken

  datatype Exposure = DraftExposure | NotExposed | NoPermission | Ready | UnsafeSource

  datatype FieldKind = Json | OtherKind

  datatype Field = Field(code: string, externalKey: Option<string>, kind: FieldKind, isUnique: bool)

  /** The capability snapshot of an external source holds a flag, if it is there and a boolean. */
  datatype SourceKind = MainSource | ExternalSource(supportsScopeFilter: Option<bool>)

  datatype Model = Model(
    id: int, status: ModelStatus, exposure: Exposure, source: SourceKind, auditNamespace: string, isProtected: bool,
    fields: seq<Field>)

  datatype Profile = Owner | ScopeAll | SystemAll

  datatype Grant = Grant(modelId: int, enabled: bool, profile: Profile)

  datatype Scope = Workspace(id: int) | System(id: int)

  datatype ApiKey = ApiKey(
    scope: Scope, enabled: bool, unexpired: bool,
    allowList: bool, allowGet: bool, allowCreate: bool, allowUpdate: bool, allowDelete: bool)
  {
    predicate Active() { enabled && unexpired }
    predicate HasWrite() { allowCreate || allowUpdate || allowDelete }
    predicate HasAction() { allowList || allowGet || HasWrite() }
  }

  type Grants = Scope -> seq<Grant>

  datatype Facts = Facts(
    hasActiveKey: bool, hasReadyPath: bool, hasAction: bool, hasWrite: bool, hasScopeFilter: bool,
    auditConfigured: bool)

  predicate SourceIsUnsafe(model: Model) {
    match model.source
    case MainSource => false
    case ExternalSource(flag) => flag != Some(true)
  }

  predicate AuditConfigured(model: Model) {
    Trim(model.auditNamespace) != ""
  }

  predicate CanUse(profile: Profile) {
    match profile
    case Owner => true
    case ScopeAll => true
    case SystemAll => false
  }

  predicate Usable(grant: Grant, model: Model) {
    grant.modelId == model.id && grant.enabled && CanUse(grant.profile)
  }

  predicate HasScopeFilter(key: ApiKey, model: Model, grants: Grants) {
    exists grant <- grants(key.scope) :: Usable(grant, model)
  }

  // ----- Facts -----

  /** The facts about all keys, each a statement about some key. */
  function AllFacts(model: Model, keys: seq<ApiKey>, grants: Grants): Facts {
    var filtered := exists key <- keys :: key.Active() && key.HasAction() && HasScopeFilter(key, model, grants);
    Facts(
      exists key <- keys :: key.Active(),
      filtered && AuditConfigured(model),
      exists key <- keys :: key.Active() && key.HasAction(),
      exists key <- keys :: key.Active() && key.HasWrite(),
      filtered,
      AuditConfigured(model))
  }

  predicate Completes(key: ApiKey, model: Model, grants: Grants) {
    key.HasAction() && HasScopeFilter(key, model, grants) && AuditConfigured(model)
  }

  /** The active keys up to and including the first one that completes a path. */
  function Scanned(model: Model, active: seq<ApiKey>, grants: Grants): (r: seq<ApiKey>)
    ensures r <= active
  {
    if active == [] then []
    else if Completes(active[0], model, grants) then [active[0]]
    else [active[0]] + Scanned(model, active[1..], grants)
  }

  function ActiveKeys(keys: seq<ApiKey>): (r: seq<ApiKey>)
    ensures forall key :: key in r <==> key in keys && key.Active()
  {
    if keys == [] then [] else (if keys[0].Active() then [keys[0]] else []) + ActiveKeys(keys[1..])
  }

  predicate AnyAction(keys: seq<ApiKey>) {
    exists key <- keys :: key.HasAction()
  }

  predicate AnyWrite(keys: seq<ApiKey>) {
    exists key <- keys :: key.HasWrite()
  }

  predicate AnyFilter(keys: seq<ApiKey>, model: Model, grants: Grants) {
    exists key <- keys :: key.HasAction() && HasScopeFilter(key, model, grants)
  }

  lemma AnyAppended(keys: seq<ApiKey>, key: ApiKey, model: Model, grants: Grants)
    ensures AnyAction(keys + [key]) <==> AnyAction(keys) || key.HasAction()
    ensures AnyWrite(keys + [key]) <==> AnyWrite(keys) || key.HasWrite()
    ensures AnyFilter(keys + [key], model, grants) <==>
            AnyFilter(keys, model, grants) || (key.HasAction() && HasScopeFilter(key, model, grants))
  {
    hide ApiKey.HasAction, ApiKey.HasWrite, HasScopeFilter;
    assert forall k :: k in keys + [key] <==> k in keys || k == key;
  }

  lemma AnyInMore(keys: seq<ApiKey>, more: seq<ApiKey>, model: Model, grants: Grants)
    requires keys <= more
    ensures AnyAction(keys) ==> AnyAction(more)
    ensures AnyFilter(keys, model, grants) ==> AnyFilter(more, model, grants)
  {
    hide ApiKey.HasAction, HasScopeFilter;
    assert forall k :: k in keys ==> k in more;
  }

  lemma FactsOfActive(model: Model, keys: seq<ApiKey>, grants: Grants)
    ensures var active := ActiveKeys(keys);
            AllFacts(model, keys, grants) ==
            Facts(active != [], AnyFilter(active, model, grants) && AuditConfigured(model), AnyAction(active),
                  AnyWrite(active), AnyFilter(active, model, grants), AuditConfigured(model))
  {
    hide ApiKey.HasAction, ApiKey.HasWrite, ApiKey.Active, HasScopeFilter, AuditConfigured, ActiveKeys;
    var active := ActiveKeys(keys);
    if active != [] { assert active[0] in active; }
  }

  lemma ScanStep(model: Model, active: seq<ApiKey>, grants: Grants, i: nat)
    requires i < |active|
    ensures active[..i + 1] == active[..i] + [active[i]]
    ensures active[..i] + Scanned(model, active[i..], grants) ==
            if Completes(active[i], model, grants) then active[..i + 1]
            else active[..i + 1] + Scanned(model, active[i + 1..], grants)
  {
    hide Completes;
    assert active[i..][1..] == active[i + 1..];
  }

  /** The program's scan. It stops at the first key that completes a path, so it may miss the write permission of a
      later key; every other fact is the one about all keys. */
  method ApiExposureAdvisorFacts(model: Model, keys: seq<ApiKey>, grants: Grants) returns (facts: Facts)
    ensures facts == AllFacts(model, keys, grants).(hasWrite := facts.hasWrite)
    ensures facts.hasWrite <==> AnyWrite(Scanned(model, ActiveKeys(keys), grants))
    ensures !facts.hasReadyPath ==> facts == AllFacts(model, keys, grants)
  {
    hide HasScopeFilter, AuditConfigured, AnyAction, AnyWrite, AnyFilter, Scanned, ActiveKeys, AllFacts,
         ApiKey.HasAction;
    var active := ActiveKeys(keys);
    var audit := AuditConfigured(model);
    var ready, action, write, filter := false, false, false, false;
    var i := 0;
    NothingScanned(model, active, grants);
    while i < |active|
      invariant i <= |active| && !ready
      invariant action == AnyAction(active[..i])
      invariant write == AnyWrite(active[..i])
      invariant filter == AnyFilter(active[..i], model, grants)
      invariant !(filter && audit)
      invariant Scanned(model, active, grants) == active[..i] + Scanned(model, active[i..], grants)
    {
      var key := active[i];
      ScanStep(model, active, grants, i);
      AnyAppended(active[..i], key, model, grants);
      NoActionNoWrite(key);
      i := i + 1;
      if !key.HasAction() {
        continue;
      }
      action := true;
      write := write || key.HasWrite();
      var hasScopeFilter := HasScopeFilter(key, model, grants);
      filter := filter || hasScopeFilter;
      if hasScopeFilter && audit {
        ready := true;
        break;
      }
    }
    AnyInMore(active[..i], active, model, grants);
    NothingScanned(model, active, grants);
    FactsOfActive(model, keys, grants);
    facts := Facts(active != [], ready, action, write, filter, audit);
  }

  lemma NoActionNoWrite(key: ApiKey)
    ensures key.HasWrite() ==> key.HasAction()
  {
  }

  lemma NothingScanned(model: Model, active: seq<ApiKey>, grants: Grants)
    ensures !AnyAction(active[..0]) && !AnyWrite(active[..0]) && !AnyFilter(active[..0], model, grants)
    ensures active[0..] == active && active[..|active|] == active && Scanned(model, active[|active|..], grants) == []
    ensures forall s: seq<ApiKey> :: active[..0] + s == s && s + [] == s
  {
  }

  // ----- Status and findings -----

  /** The stored status is given a meaning by the facts. */
  function EffectiveStatus(model: Model, facts: Facts): Exposure {
    match model.status
    case Draft => DraftExposure
    case Published =>
      if SourceIsUnsafe(model) then UnsafeSource
      else if !facts.hasActiveKey then NotExposed
      else if facts.hasReadyPath then Ready
      else NoPermission
    case _ => if model.exposure == DraftExposure || model.exposure == Ready then NoPermission else model.exposure
  }

  method EffectiveApiExposureStatus(model: Model, keys: seq<ApiKey>, grants: Grants) returns (r: Exposure)
    ensures r == EffectiveStatus(model, AllFacts(model, keys, grants))
  {
    if model.status == Draft {
      return DraftExposure;
    }
    if model.status == Disabled || model.status == Broken {
      match model.exposure {
        case DraftExposure => return NoPermission;
        case Ready => return NoPermission;
        case _ => return model.exposure;
      }
    }
    if SourceIsUnsafe(model) {
      return UnsafeSource;
    }
    hide AllFacts;
    var facts := ApiExposureAdvisorFacts(model, keys, grants);
    if !facts.hasActiveKey {
      return NotExposed;
    }
    if facts.hasReadyPath {
      return Ready;
    }
    return NoPermission;
  }

  datatype Code =
    | PublishedNotExposed | ApiExposedNoPermission | UnsafeExternalSource | MissingAuditForWriteApi
    | MissingScopeFilter | ProtectedExposureAttempt | DuplicateOrRiskyFields

  datatype Severity = Info | Medium | High | Blocking

  datatype Finding = Finding(modelId: int, severity: Severity, code: Code, canAcknowledge: bool)

  predicate Clash(a: Field, b: Field) {
    a.code == b.code || (a.externalKey.Some? && a.externalKey == b.externalKey)
  }

  predicate DuplicateOrRisky(fields: seq<Field>) {
    || (exists i, j | 0 <= i < j < |fields| :: Clash(fields[i], fields[j]))
    || exists i | 0 <= i < |fields| :: fields[i].isUnique && fields[i].kind == Json
  }

  /** One pass with two sets of what was seen. */
  method HasDuplicateOrRiskyFields(fields: seq<Field>) returns (r: bool)
    ensures r <==> DuplicateOrRisky(fields)
  {
    hide DuplicateOrRisky, SeenCodes, SeenKeys;
    var codes: set<string>, externalKeys: set<string> := {}, {};
    NoFields(fields);
    var i := 0;
    while i < |fields|
      invariant i <= |fields|
      invariant SeenCodes(fields[..i], codes) && SeenKeys(fields[..i], externalKeys)
      invariant !DuplicateOrRisky(fields[..i])
    {
      var field := fields[i];
      assert fields[..i + 1] == fields[..i] + [field];
      OneMoreField(fields[..i], field, codes, externalKeys);
      if DuplicateOrRisky(fields[..i + 1]) { RiskStays(fields, i + 1); }
      if field.code in codes {
        return true;
      }
      codes := codes + {field.code};
      if field.externalKey.Some? {
        if field.externalKey.value in externalKeys {
          return true;
        }
        externalKeys := externalKeys + {field.externalKey.value};
      }
      if field.isUnique && field.kind == Json {
        return true;
      }
      i := i + 1;
    }
    assert fields[..i] == fields;
    return false;
  }

  ghost predicate SeenCodes(fields: seq<Field>, codes: set<string>) {
    forall code :: code in codes <==> exists j | 0 <= j < |fields| :: fields[j].code == code
  }

  ghost predicate SeenKeys(fields: seq<Field>, keys: set<string>) {
    forall key :: key in keys <==> exists j | 0 <= j < |fields| :: fields[j].externalKey == Some(key)
  }

  lemma OneMoreField(fields: seq<Field>, field: Field, codes: set<string>, keys: set<string>)
    requires SeenCodes(fields, codes) && SeenKeys(fields, keys)
    ensures var more := fields + [field];
            && SeenCodes(more, codes + {field.code})
            && (if field.externalKey.Some? then SeenKeys(more, keys + {field.externalKey.value})
                else SeenKeys(more, keys))
            && (DuplicateOrRisky(more) <==>
                || DuplicateOrRisky(fields)
                || field.code in codes || (field.externalKey.Some? && field.externalKey.value in keys)
                || (field.isUnique && field.kind == Json))
  {
    OneMoreSeen(fields, field, codes, keys);
    OneMoreRisk(fields, field);
    hide DuplicateOrRisky;
    assert (exists j | 0 <= j < |fields| :: Clash(fields[j], field)) <==>
           field.code in codes || (field.externalKey.Some? && field.externalKey.value in keys);
  }

  lemma OneMoreSeen(fields: seq<Field>, field: Field, codes: set<string>, keys: set<string>)
    requires SeenCodes(fields, codes) && SeenKeys(fields, keys)
    ensures var more := fields + [field];
            && SeenCodes(more, codes + {field.code})
            && (if field.externalKey.Some? then SeenKeys(more, keys + {field.externalKey.value})
                else SeenKeys(more, keys))
  {
    var more := fields + [field];
    assert more[|fields|] == field && forall j | 0 <= j < |fields| :: fields[j] == more[j];
  }

  lemma OneMoreRisk(fields: seq<Field>, field: Field)
    ensures DuplicateOrRisky(fields + [field]) <==>
            || DuplicateOrRisky(fields)
            || (exists j | 0 <= j < |fields| :: Clash(fields[j], field))
            || (field.isUnique && field.kind == Json)
  {
    hide Clash;
    var more := fields + [field];
    assert more[|fields|] == field && forall j | 0 <= j < |fields| :: fields[j] == more[j];
  }

  lemma NoFields(fields: seq<Field>)
    ensures SeenCodes(fields[..0], {}) && SeenKeys(fields[..0], {}) && !DuplicateOrRisky(fields[..0])
  {
  }

  lemma RiskStays(fields: seq<Field>, n: nat)
    requires n <= |fields| && DuplicateOrRisky(fields[..n])
    ensures DuplicateOrRisky(fields)
  {
    assert forall j | 0 <= j < n :: fields[..n][j] == fields[j];
  }

  /** Whether a finding is due, as a condition on the model and the facts. */
  predicate Due(code: Code, model: Model, facts: Facts) {
    match code
    case PublishedNotExposed =>
      model.status == Published && EffectiveStatus(model, facts) == NotExposed && !facts.hasActiveKey
    case ApiExposedNoPermission =>
      EffectiveStatus(model, facts) == NoPermission || (facts.hasActiveKey && !facts.hasReadyPath)
    case UnsafeExternalSource => SourceIsUnsafe(model)
    case MissingAuditForWriteApi => facts.hasWrite && !facts.auditConfigured
    case MissingScopeFilter => facts.hasAction && !facts.hasScopeFilter
    case ProtectedExposureAttempt => model.isProtected && (model.exposure != NotExposed || facts.hasActiveKey)
    case DuplicateOrRiskyFields => DuplicateOrRisky(model.fields)
  }

  function FindingOf(code: Code, model: Model): Finding {
    match code
    case PublishedNotExposed => Finding(model.id, Info, code, true)
    case ApiExposedNoPermission => Finding(model.id, High, code, false)
    case UnsafeExternalSource => Finding(model.id, Blocking, code, false)
    case MissingAuditForWriteApi => Finding(model.id, High, code, false)
    case MissingScopeFilter => Finding(model.id, Blocking, code, false)
    case ProtectedExposureAttempt => Finding(model.id, Blocking, code, false)
    case DuplicateOrRiskyFields => Finding(model.id, Medium, code, true)
  }

  const CODES := [PublishedNotExposed, ApiExposedNoPermission, UnsafeExternalSource, MissingAuditForWriteApi,
                  MissingScopeFilter, ProtectedExposureAttempt, DuplicateOrRiskyFields]

  /** The findings that are due among these codes, in this order. */
  function DueFindings(codes: seq<Code>, model: Model, facts: Facts): (r: seq<Finding>)
    ensures forall code :: FindingOf(code, model) in r <==> code in codes && Due(code, model, facts)
  {
    if codes == [] then []
    else
      (if Due(codes[0], model, facts) then [FindingOf(codes[0], model)] else []) + DueFindings(codes[1..], model, facts)
  }

  /** The program's advice, computed from the facts of a scan that may have stopped early, is the advice due on the
      facts about all keys. */
  method AdvisorFindings(model: Model, keys: seq<ApiKey>, grants: Grants) returns (findings: seq<Finding>)
    ensures findings == DueFindings(CODES, model, AllFacts(model, keys, grants))
  {
    hide AllFacts, DuplicateOrRisky, DueFindings, Scanned, EffectiveStatus, SourceIsUnsafe, AuditConfigured, Advice,
         Due, FindingOf;
    var effective := EffectiveApiExposureStatus(model, keys, grants);
    var facts := ApiExposureAdvisorFacts(model, keys, grants);
    ghost var all := AllFacts(model, keys, grants);
    ReadyMeansAudited(model, keys, grants);
    AdviceMeaning(model, all, facts.hasWrite);
    findings := [];
    if model.status == Published && effective == NotExposed && !facts.hasActiveKey {
      findings := findings + [Finding(model.id, Info, PublishedNotExposed, true)];
    }
    assert findings == Advice(1, model, all);
    if effective == NoPermission || (facts.hasActiveKey && !facts.hasReadyPath) {
      findings := findings + [Finding(model.id, High, ApiExposedNoPermission, false)];
    }
    assert findings == Advice(2, model, all);
    if SourceIsUnsafe(model) {
      findings := findings + [Finding(model.id, Blocking, UnsafeExternalSource, false)];
    }
    assert findings == Advice(3, model, all);
    if facts.hasWrite && !facts.auditConfigured {
      findings := findings + [Finding(model.id, High, MissingAuditForWriteApi, false)];
    }
    assert findings == Advice(4, model, all);
    if facts.hasAction && !facts.hasScopeFilter {
      findings := findings + [Finding(model.id, Blocking, MissingScopeFilter, false)];
    }
    assert findings == Advice(5, model, all);
    if model.isProtected && (model.exposure != NotExposed || facts.hasActiveKey) {
      findings := findings + [Finding(model.id, Blocking, ProtectedExposureAttempt, false)];
    }
    assert findings == Advice(6, model, all);
    var risky := HasDuplicateOrRiskyFields(model.fields);
    if risky {
      findings := findings + [Finding(model.id, Medium, DuplicateOrRiskyFields, true)];
    }
    assert findings == Advice(7, model, all);
  }

  function Advice(n: nat, model: Model, facts: Facts): seq<Finding> {
    DueFindings(if n <= |CODES| then CODES[..n] else CODES, model, facts)
  }

  /** Each further code adds its finding under its condition; the write flag may be that of a scan that stopped
      early. */
  lemma AdviceMeaning(model: Model, all: Facts, write: bool)
    requires all.hasReadyPath ==> all.auditConfigured
    requires !all.hasReadyPath ==> write == all.hasWrite
    ensures Advice(0, model, all) == [] && Advice(7, model, all) == DueFindings(CODES, model, all)
    ensures Advice(1, model, all) == Advice(0, model, all) +
            if model.status == Published && EffectiveStatus(model, all) == NotExposed && !all.hasActiveKey
            then [Finding(model.id, Info, PublishedNotExposed, true)] else []
    ensures Advice(2, model, all) == Advice(1, model, all) +
            if EffectiveStatus(model, all) == NoPermission || (all.hasActiveKey && !all.hasReadyPath)
            then [Finding(model.id, High, ApiExposedNoPermission, false)] else []
    ensures Advice(3, model, all) == Advice(2, model, all) +
            if SourceIsUnsafe(model)
            then [Finding(model.id, Blocking, UnsafeExternalSource, false)] else []
    ensures Advice(4, model, all) == Advice(3, model, all) +
            if write && !all.auditConfigured
            then [Finding(model.id, High, MissingAuditForWriteApi, false)] else []
    ensures Advice(5, model, all) == Advice(4, model, all) +
            if all.hasAction && !all.hasScopeFilter
            then [Finding(model.id, Blocking, MissingScopeFilter, false)] else []
    ensures Advice(6, model, all) == Advice(5, model, all) +
            if model.isProtected && (model.exposure != NotExposed || all.hasActiveKey)
            then [Finding(model.id, Blocking, ProtectedExposureAttempt, false)] else []
    ensures Advice(7, model, all) == Advice(6, model, all) +
            if DuplicateOrRisky(model.fields)
            then [Finding(model.id, Medium, DuplicateOrRiskyFields, true)] else []
  {
    hide DueFindings, EffectiveStatus, SourceIsUnsafe, DuplicateOrRisky, Advice;
    NoAdvice(model, all);
    NextAdvice(0, PublishedNotExposed, model, all);
    NextAdvice(1, ApiExposedNoPermission, model, all);
    NextAdvice(2, UnsafeExternalSource, model, all);
    NextAdvice(3, MissingAuditForWriteApi, model, all);
    NextAdvice(4, MissingScopeFilter, model, all);
    NextAdvice(5, ProtectedExposureAttempt, model, all);
    NextAdvice(6, DuplicateOrRiskyFields, model, all);
  }

  lemma NoAdvice(model: Model, facts: Facts)
    ensures Advice(0, model, facts) == [] && Advice(7, model, facts) == DueFindings(CODES, model, facts)
  {
    assert CODES[..7] == CODES;
  }

  lemma NextAdvice(n: nat, code: Code, model: Model, facts: Facts)
    requires n < 7 && CODES[n] == code
    ensures Advice(n + 1, model, facts) == AdviceWith(Advice(n, model, facts), code, model, facts)
  {
    hide Due, FindingOf;
    AppendAdvice(CODES[..n], code, model, facts);
    assert CODES[..n + 1] == CODES[..n] + [code];
  }

  function AdviceWith(findings: seq<Finding>, code: Code, model: Model, facts: Facts): seq<Finding> {
    if Due(code, model, facts) then findings + [FindingOf(code, model)] else findings
  }

  lemma {:induction false} AppendAdvice(codes: seq<Code>, code: Code, model: Model, facts: Facts)
    ensures DueFindings(codes + [code], model, facts) ==
            AdviceWith(DueFindings(codes, model, facts), code, model, facts)
  {
    hide Due, FindingOf;
    if codes != [] {
      assert (codes + [code])[1..] == codes[1..] + [code];
      AppendAdvice(codes[1..], code, model, facts);
    } else {
      assert [code][1..] == [];
    }
  }

  lemma ReadyMeansAudited(model: Model, keys: seq<ApiKey>, grants: Grants)
    ensures AllFacts(model, keys, grants).hasReadyPath ==> AllFacts(model, keys, grants).auditConfigured
  {
  }

  // ----- What the status says -----

  /** Exactly when a data model is reported as ready. */
  lemma ReadyIff(model: Model, keys: seq<ApiKey>, grants: Grants)
    ensures EffectiveStatus(model, AllFacts(model, keys, grants)) == Ready <==>
            (&& model.status == Published && !SourceIsUnsafe(model) && AuditConfigured(model)
             && exists key <- keys, grant <- grants(key.scope) ::
                  key.Active() && key.HasAction() && Usable(grant, model))
  {
    hide AuditConfigured, Usable;
    var facts := AllFacts(model, keys, grants);
    if facts.hasScopeFilter {
      var key :| key in keys && key.Active() && key.HasAction() && HasScopeFilter(key, model, grants);
      var grant :| grant in grants(key.scope) && Usable(grant, model);
    }
    if key, grant :| key in keys && grant in grants(key.scope)
                     && key.Active() && key.HasAction() && Usable(grant, model)
    {
      assert HasScopeFilter(key, model, grants);
    }
  }

  /** A model with the effective status ready draws none of these findings. */
  lemma ReadyIsQuiet(model: Model, keys: seq<ApiKey>, grants: Grants)
    requires EffectiveStatus(model, AllFacts(model, keys, grants)) == Ready
    ensures var findings := DueFindings(CODES, model, AllFacts(model, keys, grants));
            forall code <- [PublishedNotExposed, ApiExposedNoPermission, UnsafeExternalSource, MissingAuditForWriteApi,
                            MissingScopeFilter] :: FindingOf(code, model) !in findings
  {
    hide AuditConfigured, HasScopeFilter, DuplicateOrRisky;
  }

  /** Exactly when a published, safe model with an active key lacks permissions: no key has an action, or there is the
      finding about scope filters, or audit is not configured. */
  lemma NoPermissionIff(model: Model, keys: seq<ApiKey>, grants: Grants)
    requires model.status == Published && !SourceIsUnsafe(model)
    ensures var facts := AllFacts(model, keys, grants);
            var findings := DueFindings(CODES, model, facts);
            FindingOf(ApiExposedNoPermission, model) in findings <==>
            (&& (exists key <- keys :: key.Active())
             && (|| (forall key <- keys :: key.Active() ==> !key.HasAction())
                 || FindingOf(MissingScopeFilter, model) in findings
                 || !AuditConfigured(model)))
  {
    hide AuditConfigured, HasScopeFilter, DuplicateOrRisky;
  }

  const AUDITED := Model(1, Published, Ready, MainSource, "a", false, [])
  const READER := ApiKey(Workspace(1), true, true, true, false, false, false, false)
  const WRITER := ApiKey(Workspace(1), true, true, false, false, true, false, false)

  function OneGrant(scope: Scope): seq<Grant> {
    [Grant(1, true, Owner)]
  }

  lemma ReaderCompletes()
    ensures Completes(READER, AUDITED, OneGrant)
  {
    hide Trim, HasScopeFilter;
    assert TrimmedStart("a") && TrimmedEnd("a");
    ReaderHasFilter();
  }

  lemma ReaderHasFilter()
    ensures HasScopeFilter(READER, AUDITED, OneGrant)
  {
    assert Grant(1, true, Owner) in OneGrant(READER.scope);
    assert Usable(Grant(1, true, Owner), AUDITED);
  }

  /** The early stop does change a fact. */
  lemma ScanMissesAWritePermission()
    ensures exists model, keys, grants: Grants ::
              AllFacts(model, keys, grants).hasWrite && !AnyWrite(Scanned(model, ActiveKeys(keys), grants))
  {
    ReaderCompletes();
    hide Completes, AuditConfigured, HasScopeFilter;
    var keys := [READER, WRITER];
    assert ActiveKeys(keys)[0] == READER;
    assert Scanned(AUDITED, ActiveKeys(keys), OneGrant) == [READER];
    assert WRITER in keys && WRITER.Active() && WRITER.HasWrite();
    assert AllFacts(AUDITED, keys, OneGrant).hasWrite;
  }
}
