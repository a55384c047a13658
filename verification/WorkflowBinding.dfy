/** Workflow bindings of a tenant (packages/tenant/src/workflow-binding.schema.ts) and how they are
    looked up (packages/tenant/src/tenant.config.ts). */
module WorkflowBinding {
  import opened Sequences

  type WorkflowKey = string
  type BindingDetails(==, !new)

  datatype Adapter = NoEngine | Hatchet

  datatype WorkflowBinding = WorkflowBinding(key: WorkflowKey, enabled: bool, details: BindingDetails)

  /** `credentialRef` names an environment variable, so it is never empty. */
  datatype WorkflowEngine = WorkflowEngine(adapter: Adapter, credentialRef: Option<string>, bindings: seq<WorkflowBinding>)

  /** What a tenant without an engine has. */
  const NO_WORKFLOW_ENGINE := WorkflowEngine(NoEngine, None, [])

  datatype EngineIssue =
    | MissingCredential
    | EnabledWithoutEngine(index: nat)
    | DuplicateKey(index: nat)

  /** What is wrong with an engine, issue by issue. */
  ghost predicate EngineViolates(e: WorkflowEngine, issue: EngineIssue) {
    match issue
    case MissingCredential => e.adapter != NoEngine && e.credentialRef.None?
    case EnabledWithoutEngine(k) => e.adapter == NoEngine && k < |e.bindings| && e.bindings[k].enabled
    case DuplicateKey(k) => k < |e.bindings| && exists j :: 0 <= j < k && e.bindings[j].key == e.bindings[k].key
  }

  /** The issues reported are exactly the violations. */
  method CheckWorkflowEngine(e: WorkflowEngine) returns (issues: seq<EngineIssue>)
    ensures forall issue :: issue in issues <==> EngineViolates(e, issue)
  {
    issues := [];
    if e.adapter != NoEngine && e.credentialRef.None? {
      issues := issues + [MissingCredential];
    }
    if e.adapter == NoEngine {
      for k := 0 to |e.bindings|
        invariant forall issue :: issue in issues <==>
          issue.EnabledWithoutEngine? && issue.index < k && EngineViolates(e, issue)
      {
        if e.bindings[k].enabled {
          issues := issues + [EnabledWithoutEngine(k)];
        }
      }
    }
    var seen: set<WorkflowKey> := {};
    for k := 0 to |e.bindings|
      invariant forall key :: key in seen <==> exists j :: 0 <= j < k && e.bindings[j].key == key
      invariant forall issue :: issue in issues <==>
        EngineViolates(e, issue) && (issue.DuplicateKey? ==> issue.index < k)
    {
      if e.bindings[k].key in seen {
        issues := issues + [DuplicateKey(k)];
      }
      seen := seen + {e.bindings[k].key};
    }
  }

  ghost predicate AcceptedEngine(e: WorkflowEngine) {
    forall issue :: !EngineViolates(e, issue)
  }

  /** Accepted means: an engine comes with a credential, no binding is enabled without an engine, and
      every key is bound once. */
  lemma AcceptedEngineMeans(e: WorkflowEngine)
    ensures AcceptedEngine(e) <==>
      && (e.adapter == NoEngine || e.credentialRef.Some?)
      && (e.adapter == NoEngine ==> forall k :: 0 <= k < |e.bindings| ==> !e.bindings[k].enabled)
      && (forall j, k :: 0 <= j < k < |e.bindings| ==> e.bindings[j].key != e.bindings[k].key)
  {
    if AcceptedEngine(e) {
      assert !EngineViolates(e, MissingCredential);
      forall k | 0 <= k < |e.bindings| && e.adapter == NoEngine ensures !e.bindings[k].enabled {
        assert !EngineViolates(e, EnabledWithoutEngine(k));
      }
      forall j, k | 0 <= j < k < |e.bindings| ensures e.bindings[j].key != e.bindings[k].key {
        assert !EngineViolates(e, DuplicateKey(k));
      }
    }
  }

  // ----------------------------------------------------------------------------------------
  // Looking a binding up
  // ----------------------------------------------------------------------------------------

  function TenantWorkflowEngine(declared: Option<WorkflowEngine>): WorkflowEngine {
    if declared.Some? then declared.value else NO_WORKFLOW_ENGINE
  }

  function FirstEnabled(bindings: seq<WorkflowBinding>, key: WorkflowKey): Option<WorkflowBinding> {
    if bindings == [] then None
    else if bindings[0].key == key && bindings[0].enabled then Some(bindings[0])
    else FirstEnabled(bindings[1..], key)
  }

  function TenantWorkflowBinding(declared: Option<WorkflowEngine>, key: WorkflowKey): Option<WorkflowBinding> {
    var engine := TenantWorkflowEngine(declared);
    if engine.adapter == NoEngine then None else FirstEnabled(engine.bindings, key)
  }

  /** `bindings.some(b => b.key === key && b.enabled)` on the declared engine, if any. */
  predicate Bound(declared: Option<WorkflowEngine>, key: WorkflowKey) {
    declared.Some? && exists b :: b in declared.value.bindings && b.key == key && b.enabled
  }

  /** `b` is the binding of its key, and no other is. */
  ghost predicate OnlyBinding(bindings: seq<WorkflowBinding>, b: WorkflowBinding) {
    exists k :: 0 <= k < |bindings| && bindings[k] == b
      && forall j :: 0 <= j < |bindings| && j != k ==> bindings[j].key != b.key
  }

  lemma {:induction false} FirstEnabledFinds(bindings: seq<WorkflowBinding>, key: WorkflowKey)
    ensures match FirstEnabled(bindings, key)
      case Some(b) => b in bindings && b.key == key && b.enabled
      case None => forall b :: b in bindings ==> b.key != key || !b.enabled
  {
    if bindings != [] {
      FirstEnabledFinds(bindings[1..], key);
      assert forall b :: b in bindings <==> b == bindings[0] || b in bindings[1..];
    }
  }

  /** For an accepted engine the lookup succeeds exactly when the key has an enabled binding; what it
      returns is the only binding with that key, and it runs on an engine with a credential. */
  lemma LookupFindsTheBinding(declared: Option<WorkflowEngine>, key: WorkflowKey)
    requires declared.Some? ==> AcceptedEngine(declared.value)
    ensures TenantWorkflowBinding(declared, key).Some? <==> Bound(declared, key)
    ensures TenantWorkflowBinding(declared, key).Some? ==>
      var b := TenantWorkflowBinding(declared, key).value;
      && b.key == key && b.enabled
      && declared.value.adapter != NoEngine && declared.value.credentialRef.Some?
      && OnlyBinding(declared.value.bindings, b)
  {
    if declared.Some? {
      var e := declared.value;
      AcceptedEngineMeans(e);
      FirstEnabledFinds(e.bindings, key);
      if TenantWorkflowBinding(declared, key).Some? {
        var b := TenantWorkflowBinding(declared, key).value;
        var k :| 0 <= k < |e.bindings| && e.bindings[k] == b;
        assert forall j :: 0 <= j < |e.bindings| && j != k ==> e.bindings[j].key != b.key;
      }
    }
  }

  /** Which of two bindings a lookup finds when a key is bound twice is decided by their order: the
      reason such an engine is refused. */
  lemma OrderDecidesBetweenDuplicates(credential: string, key: WorkflowKey, a: BindingDetails, b: BindingDetails)
    requires a != b
    ensures var first, second := WorkflowBinding(key, true, a), WorkflowBinding(key, true, b);
      && TenantWorkflowBinding(Some(WorkflowEngine(Hatchet, Some(credential), [first, second])), key) == Some(first)
      && TenantWorkflowBinding(Some(WorkflowEngine(Hatchet, Some(credential), [second, first])), key) == Some(second)
      && !AcceptedEngine(WorkflowEngine(Hatchet, Some(credential), [first, second]))
  {
    var e := WorkflowEngine(Hatchet, Some(credential), [WorkflowBinding(key, true, a), WorkflowBinding(key, true, b)]);
    assert e.bindings[0].key == e.bindings[1].key;
    assert EngineViolates(e, DuplicateKey(1));
  }

  /** What a lookup gives, accepted engine or not: nothing without an engine, otherwise the first enabled
      binding with the key. */
  lemma {:induction false} LookupReads(declared: Option<WorkflowEngine>, key: WorkflowKey)
    ensures declared.None? || declared.value.adapter == NoEngine ==> TenantWorkflowBinding(declared, key) == None
    ensures declared.Some? && declared.value.adapter != NoEngine ==>
      forall k :: FirstEnabledAt(declared.value.bindings, key, k) ==>
        TenantWorkflowBinding(declared, key) == Some(declared.value.bindings[k])
  {
    if declared.Some? {
      forall k | FirstEnabledAt(declared.value.bindings, key, k)
        ensures FirstEnabled(declared.value.bindings, key) == Some(declared.value.bindings[k])
      {
        FirstIsFound(declared.value.bindings, key, k);
      }
    }
  }

  predicate FirstEnabledAt(bindings: seq<WorkflowBinding>, key: WorkflowKey, k: int) {
    && 0 <= k < |bindings| && bindings[k].key == key && bindings[k].enabled
    && forall j :: 0 <= j < k ==> bindings[j].key != key || !bindings[j].enabled
  }

  lemma {:induction false} FirstIsFound(bindings: seq<WorkflowBinding>, key: WorkflowKey, k: nat)
    requires FirstEnabledAt(bindings, key, k)
    ensures FirstEnabled(bindings, key) == Some(bindings[k])
  {
    if k > 0 { FirstIsFound(bindings[1..], key, k - 1); }
  }
}
