/** What the exposure status and the findings say about a model, its keys and their grants, told from their members. */
module ExposureMeaning {
  import opened ExposureAdvisor
  import opened Text

  /** The source is external and does not say that it filters by scope. */
  predicate LacksScopeFilter(source: SourceKind) {
    match source
    case MainSource => false
    case ExternalSource(None) => true
    case ExternalSource(Some(supports)) => !supports
  }

  /** The audit namespace is not blank. */
  ghost predicate Audited(model: Model) {
    exists i :: 0 <= i < |model.auditNamespace| && !IsWhitespace(model.auditNamespace[i])
  }

  predicate CanAct(key: ApiKey) {
    key.allowList || key.allowGet || CanWrite(key)
  }

  predicate CanWrite(key: ApiKey) {
    key.allowCreate || key.allowUpdate || key.allowDelete
  }

  predicate InUse(key: ApiKey) {
    key.enabled && key.unexpired
  }

  /** A grant of the scope of the key is enabled for the model, for owners or for the whole scope. */
  ghost predicate Granted(model: Model, key: ApiKey, grants: Grants) {
    exists grant <- grants(key.scope) ::
      grant.modelId == model.id && grant.enabled && (grant.profile == Owner || grant.profile == ScopeAll)
  }

  lemma MembersMeaning(model: Model, key: ApiKey, grants: Grants)
    ensures SourceIsUnsafe(model) <==> LacksScopeFilter(model.source)
    ensures key.HasWrite() <==> CanWrite(key)
    ensures key.HasAction() <==> CanAct(key)
    ensures key.Active() <==> InUse(key)
    ensures HasScopeFilter(key, model, grants) <==> Granted(model, key, grants)
  {
    assert forall grant <- grants(key.scope) ::
             Usable(grant, model) <==>
             grant.modelId == model.id && grant.enabled && (grant.profile == Owner || grant.profile == ScopeAll);
  }

  lemma AuditedIff(model: Model)
    ensures AuditConfigured(model) <==> Audited(model)
  {
    NotBlankIff(model.auditNamespace);
    hide Trim;
  }

  lemma NotBlankIff(s: string)
    ensures Trim(s) != "" <==> exists i :: 0 <= i < |s| && !IsWhitespace(s[i])
  {
    var t := TrimStart(s);
    if t != "" { assert s[|s| - |t|] == t[0] && !IsWhitespace(t[0]); }
  }

  /** The facts about all keys. */
  lemma FactsMeaning(model: Model, keys: seq<ApiKey>, grants: Grants)
    ensures var facts := AllFacts(model, keys, grants);
            && (facts.hasActiveKey <==> exists key <- keys :: InUse(key))
            && (facts.hasAction <==> exists key <- keys :: InUse(key) && CanAct(key))
            && (facts.hasWrite <==> exists key <- keys :: InUse(key) && CanWrite(key))
            && (facts.hasScopeFilter <==>
                  exists key <- keys :: InUse(key) && CanAct(key) && Granted(model, key, grants))
            && (facts.auditConfigured <==> Audited(model))
            && (facts.hasReadyPath <==> facts.hasScopeFilter && facts.auditConfigured)
  {
    AuditedIff(model);
    forall key: ApiKey
      ensures key.HasWrite() <==> CanWrite(key)
      ensures key.HasAction() <==> CanAct(key)
      ensures key.Active() <==> InUse(key)
      ensures HasScopeFilter(key, model, grants) <==> Granted(model, key, grants)
    {
      MembersMeaning(model, key, grants);
    }
    hide AuditConfigured, Audited, HasScopeFilter, Granted, ApiKey.HasAction, ApiKey.HasWrite, ApiKey.Active, InUse,
         CanAct, CanWrite;
  }

  /** The key makes a path complete. */
  ghost predicate CompletesPath(model: Model, key: ApiKey, grants: Grants) {
    InUse(key) && CanAct(key) && Granted(model, key, grants) && Audited(model)
  }

  /** The key counts for the write flag: it may write and no earlier key makes a path complete. */
  ghost predicate WriterAt(model: Model, keys: seq<ApiKey>, grants: Grants, i: nat)
    requires i < |keys|
  {
    InUse(keys[i]) && CanWrite(keys[i]) && forall j | 0 <= j < i :: !CompletesPath(model, keys[j], grants)
  }

  /** What the reported write flag says: unlike the fact about all keys it depends on their order. */
  lemma {:induction false} WriteFlagMeaning(model: Model, keys: seq<ApiKey>, grants: Grants)
    ensures AnyWrite(Scanned(model, ActiveKeys(keys), grants)) <==>
            exists i :: 0 <= i < |keys| && WriterAt(model, keys, grants, i)
  {
    if keys != [] {
      var first, rest := keys[0], keys[1..];
      WriteFlagMeaning(model, rest, grants);
      MembersMeaning(model, first, grants);
      AuditedIff(model);
      FirstScanned(model, first, ActiveKeys(rest), grants);
      FirstWriter(model, first, rest, grants);
      assert [first] + rest == keys;
      hide ApiKey.HasAction, HasScopeFilter, AuditConfigured, Audited, Granted, CanAct, ApiKey.Active, InUse,
           ApiKey.HasWrite, CanWrite, WriterAt, Scanned, AnyWrite;
      assert ActiveKeys(keys) == (if first.Active() then [first] else []) + ActiveKeys(rest);
      assert [] + ActiveKeys(rest) == ActiveKeys(rest);
    }
  }

  lemma FirstWriter(model: Model, first: ApiKey, rest: seq<ApiKey>, grants: Grants)
    ensures var keys := [first] + rest;
            (exists i :: 0 <= i < |keys| && WriterAt(model, keys, grants, i)) <==>
            || (InUse(first) && CanWrite(first))
            || (!CompletesPath(model, first, grants)
                && exists i :: 0 <= i < |rest| && WriterAt(model, rest, grants, i))
  {
    var keys := [first] + rest;
    hide InUse, CanWrite, CompletesPath;
    assert keys[0] == first;
    if i :| 0 <= i < |keys| && WriterAt(model, keys, grants, i) {
      if i > 0 {
        var k := i - 1;
        assert !CompletesPath(model, keys[0], grants);
        assert rest[k] == keys[i] && forall j | 0 <= j < k :: rest[j] == keys[j + 1];
        assert WriterAt(model, rest, grants, k);
      }
    }
    if InUse(first) && CanWrite(first) { assert WriterAt(model, keys, grants, 0); }
    if i :| !CompletesPath(model, first, grants) && 0 <= i < |rest| && WriterAt(model, rest, grants, i) {
      assert forall j | 0 < j < i + 1 :: keys[j] == rest[j - 1];
      assert WriterAt(model, keys, grants, i + 1);
    }
  }

  lemma FirstScanned(model: Model, first: ApiKey, active: seq<ApiKey>, grants: Grants)
    ensures AnyWrite(Scanned(model, [first] + active, grants)) <==>
            first.HasWrite() ||
            (!Completes(first, model, grants) && AnyWrite(Scanned(model, active, grants)))
  {
    assert ([first] + active)[1..] == active;
    hide Completes, ApiKey.HasWrite;
    var scanned := Scanned(model, active, grants);
    assert forall key :: key in [first] + scanned <==> key == first || key in scanned;
  }

  /** Main result: the effective status of a model in every case. */
  lemma StatusMeaning(model: Model, keys: seq<ApiKey>, grants: Grants)
    ensures var status := EffectiveStatus(model, AllFacts(model, keys, grants));
            var exposed := exists key <- keys :: InUse(key);
            var usable := exists key <- keys :: InUse(key) && CanAct(key) && Granted(model, key, grants);
            match model.status
            case Draft => status == DraftExposure
            case Published =>
              if LacksScopeFilter(model.source) then status == UnsafeSource
              else if !exposed then status == NotExposed
              else if usable && Audited(model) then status == Ready
              else status == NoPermission
            case Disabled => status == Demoted(model.exposure)
            case Broken => status == Demoted(model.exposure)
  {
    FactsMeaning(model, keys, grants);
    hide AllFacts, Audited, Granted, InUse, CanAct, SourceIsUnsafe, LacksScopeFilter;
    SourceMeaning(model);
  }

  lemma SourceMeaning(model: Model)
    ensures SourceIsUnsafe(model) <==> LacksScopeFilter(model.source)
  {
  }

  /** A model that is switched off keeps its stored exposure, but is neither a draft nor ready. */
  function Demoted(exposure: Exposure): Exposure {
    match exposure
    case DraftExposure => NoPermission
    case Ready => NoPermission
    case NotExposed => NotExposed
    case NoPermission => NoPermission
    case UnsafeSource => UnsafeSource
  }

  /** Two fields are read or written under one name, or a JSON field is unique. */
  ghost predicate Ambiguous(fields: seq<Field>) {
    || (exists i, j | 0 <= i < j < |fields| :: fields[i].code == fields[j].code)
    || (exists i, j | 0 <= i < j < |fields| ::
          fields[i].externalKey.Some? && fields[j].externalKey == fields[i].externalKey)
    || (exists i | 0 <= i < |fields| :: fields[i].isUnique && fields[i].kind.Json?)
  }

  lemma RiskMeaning(fields: seq<Field>)
    ensures DuplicateOrRisky(fields) <==> Ambiguous(fields)
  {
    if i, j :| 0 <= i < j < |fields| && fields[i].code == fields[j].code { assert Clash(fields[i], fields[j]); }
    if i, j :| 0 <= i < j < |fields| && fields[i].externalKey.Some? && fields[j].externalKey == fields[i].externalKey {
      assert Clash(fields[i], fields[j]);
    }
  }

  /** When a finding is due. */
  ghost predicate Deserves(code: Code, model: Model, keys: seq<ApiKey>, grants: Grants) {
    var exposed := exists key <- keys :: InUse(key);
    var usable := exists key <- keys :: InUse(key) && CanAct(key) && Granted(model, key, grants);
    match code
    case PublishedNotExposed => model.status == Published && !LacksScopeFilter(model.source) && !exposed
    case ApiExposedNoPermission =>
      || (exposed && !(usable && Audited(model)))
      || (model.status in {Disabled, Broken} && model.exposure in {DraftExposure, Ready, NoPermission})
    case UnsafeExternalSource => LacksScopeFilter(model.source)
    case MissingAuditForWriteApi => (exists key <- keys :: InUse(key) && CanWrite(key)) && !Audited(model)
    case MissingScopeFilter => (exists key <- keys :: InUse(key) && CanAct(key)) && !usable
    case ProtectedExposureAttempt => model.isProtected && (model.exposure != NotExposed || exposed)
    case DuplicateOrRiskyFields => Ambiguous(model.fields)
  }

  lemma DueIff(code: Code, model: Model, keys: seq<ApiKey>, grants: Grants)
    ensures Due(code, model, AllFacts(model, keys, grants)) <==> Deserves(code, model, keys, grants)
  {
    FactsMeaning(model, keys, grants);
    StatusMeaning(model, keys, grants);
    SourceMeaning(model);
    RiskMeaning(model.fields);
    hide AllFacts, Audited, Granted, InUse, CanAct, CanWrite, SourceIsUnsafe, LacksScopeFilter, EffectiveStatus,
         DuplicateOrRisky, Ambiguous;
  }

  /** The finding of each code: how grave it is, and whether it can be acknowledged. */
  predicate HasWeight(finding: Finding) {
    match finding.code
    case PublishedNotExposed => finding.severity == Info && finding.canAcknowledge
    case DuplicateOrRiskyFields => finding.severity == Medium && finding.canAcknowledge
    case ApiExposedNoPermission => finding.severity == High && !finding.canAcknowledge
    case MissingAuditForWriteApi => finding.severity == High && !finding.canAcknowledge
    case UnsafeExternalSource => finding.severity == Blocking && !finding.canAcknowledge
    case MissingScopeFilter => finding.severity == Blocking && !finding.canAcknowledge
    case ProtectedExposureAttempt => finding.severity == Blocking && !finding.canAcknowledge
  }

  function Rank(code: Code): nat {
    match code
    case PublishedNotExposed => 0
    case ApiExposedNoPermission => 1
    case UnsafeExternalSource => 2
    case MissingAuditForWriteApi => 3
    case MissingScopeFilter => 4
    case ProtectedExposureAttempt => 5
    case DuplicateOrRiskyFields => 6
  }

  /** Main result: exactly the findings that are due are given, each for the model and with the weight of its code, and
      in one order. */
  lemma FindingsMeaning(model: Model, keys: seq<ApiKey>, grants: Grants)
    ensures var findings := DueFindings(CODES, model, AllFacts(model, keys, grants));
            && (forall code :: (exists finding <- findings :: finding.code == code) <==>
                               Deserves(code, model, keys, grants))
            && (forall finding <- findings :: finding.modelId == model.id && HasWeight(finding))
            && Ascending(findings)
  {
    var facts := AllFacts(model, keys, grants);
    var findings := DueFindings(CODES, model, facts);
    forall code
      ensures Due(code, model, facts) <==> Deserves(code, model, keys, grants)
      ensures code in CODES && CODES[Rank(code)] == code
      ensures IsFindingOf(FindingOf(code, model), code, model)
    {
      DueIff(code, model, keys, grants);
      CodeListed(code);
      WeightOf(code, model);
    }
    hide Deserves, Due, FindingOf, HasWeight, Rank, IsFindingOf;
    FromCodes(CODES, model, facts);
    CodesInOrder();
    InOrder(CODES, model, facts);
    forall finding <- findings
      ensures IsFindingOf(finding, finding.code, model) && Deserves(finding.code, model, keys, grants)
    {
      var code :| code in CODES && finding == FindingOf(code, model);
      assert IsFindingOf(finding, code, model);
      FindingCode(finding, code, model);
    }
    forall code | Deserves(code, model, keys, grants)
      ensures exists finding <- findings :: finding.code == code
    {
      assert FindingOf(code, model) in findings;
      FindingCode(FindingOf(code, model), code, model);
    }
    forall finding <- findings
      ensures finding.modelId == model.id && HasWeight(finding)
    {
      FindingCode(finding, finding.code, model);
    }
  }

  lemma CodeListed(code: Code)
    ensures code in CODES && CODES[Rank(code)] == code
  {
  }

  lemma CodesInOrder()
    ensures forall i, j | 0 <= i < j < |CODES| :: Rank(CODES[i]) < Rank(CODES[j])
  {
  }

  /** The finding is that of this code, for this model and with its weight. */
  predicate IsFindingOf(finding: Finding, code: Code, model: Model) {
    finding.code == code && finding.modelId == model.id && HasWeight(finding)
  }

  lemma FindingCode(finding: Finding, code: Code, model: Model)
    requires IsFindingOf(finding, code, model)
    ensures finding.code == code && finding.modelId == model.id && HasWeight(finding)
  {
    hide HasWeight;
  }

  lemma WeightOf(code: Code, model: Model)
    ensures IsFindingOf(FindingOf(code, model), code, model)
  {
  }

  lemma {:induction false} FromCodes(codes: seq<Code>, model: Model, facts: Facts)
    ensures forall finding <- DueFindings(codes, model, facts) ::
              exists code :: code in codes && finding == FindingOf(code, model)
  {
    hide Due, FindingOf;
    if codes != [] {
      FromCodes(codes[1..], model, facts);
      assert codes == [codes[0]] + codes[1..];
      forall finding <- DueFindings(codes, model, facts)
        ensures exists code :: code in codes && finding == FindingOf(code, model)
      {
        if finding in DueFindings(codes[1..], model, facts) {
          var code :| code in codes[1..] && finding == FindingOf(code, model);
          assert code in codes;
        }
      }
    }
  }

  ghost predicate Ascending(findings: seq<Finding>) {
    forall i, j | 0 <= i < j < |findings| :: Rank(findings[i].code) < Rank(findings[j].code)
  }

  lemma AscendingCons(first: Finding, rest: seq<Finding>)
    requires Ascending(rest) && forall j | 0 <= j < |rest| :: Rank(first.code) < Rank(rest[j].code)
    ensures Ascending([first] + rest)
  {
    hide Rank;
  }

  lemma DueCons(codes: seq<Code>, model: Model, facts: Facts)
    requires codes != []
    ensures DueFindings(codes, model, facts) ==
            if Due(codes[0], model, facts) then [FindingOf(codes[0], model)] + DueFindings(codes[1..], model, facts)
            else DueFindings(codes[1..], model, facts)
  {
    hide Due, FindingOf;
    var rest := DueFindings(codes[1..], model, facts);
    assert [] + rest == rest;
  }

  lemma Later(codes: seq<Code>, model: Model, facts: Facts, finding: Finding)
    requires codes != [] && forall i, j | 0 <= i < j < |codes| :: Rank(codes[i]) < Rank(codes[j])
    requires finding in DueFindings(codes[1..], model, facts)
    ensures Rank(FindingOf(codes[0], model).code) < Rank(finding.code)
  {
    FromCodes(codes[1..], model, facts);
    hide Due, Rank, FindingOf, DueFindings;
    var code :| code in codes[1..] && finding == FindingOf(code, model);
    var k :| 0 <= k < |codes[1..]| && codes[1..][k] == code;
    assert codes[k + 1] == code;
    CodeOfFinding(code, model);
    CodeOfFinding(codes[0], model);
  }

  lemma {:induction false} InOrder(codes: seq<Code>, model: Model, facts: Facts)
    requires forall i, j | 0 <= i < j < |codes| :: Rank(codes[i]) < Rank(codes[j])
    ensures Ascending(DueFindings(codes, model, facts))
  {
    if codes == [] {
    } else {
      DueCons(codes, model, facts);
      hide Due, Rank, FindingOf, DueFindings;
      var rest := DueFindings(codes[1..], model, facts);
      InOrder(codes[1..], model, facts);
      forall j | 0 <= j < |rest|
        ensures Rank(FindingOf(codes[0], model).code) < Rank(rest[j].code)
      {
        Later(codes, model, facts, rest[j]);
      }
      AscendingCons(FindingOf(codes[0], model), rest);
    }
  }

  lemma CodeOfFinding(code: Code, model: Model)
    ensures FindingOf(code, model).code == code
  {
  }
}
