/** Cross-checks of a tenant configuration (packages/tenant/src/tenant.schema.ts). */
module TenantSchema {
  import opened Sequences
  import opened WorkflowBinding

  datatype Capability =
    | Knowledge | Messaging | TurnProcessing | SalesOrder | Campaign | Operations | Notifications
    | TransportCore | TransportCosting | TransportFuel | TransportSettlement | TransportAssetCompliance
    | TransportWorkforce | TransportProof | TransportCheckpoint | TransportSiteIntake | TransportToll
    | TransportAcceptance

  datatype Experience =
    OperationsConsole | KnowledgeWorkspace | AgentWorkforce | TransportOperations | B2bSalesOperations

  /** The optional blocks of a configuration that some capability asks for. */
  datatype Section =
    | ChannelIntegration | ParserIntegration | SalesOrderPolicy | CampaignPolicy
    | MessagingPersona | TurnProcessingPersona | KnowledgePersona
    | KnowledgeBootstrap | SalesOrderBootstrap

  /** `handoffFollowup` is read only together with the sales-order policy it belongs to. */
  datatype Handoff = Handoff(enabled: bool, details: BindingDetails)

  datatype Config = Config(
    experience: Experience,
    capabilities: seq<Capability>,
    sections: set<Section>,
    handoffFollowup: Option<Handoff>,
    workflowEngine: Option<WorkflowEngine>
  )

  function Dependencies(c: Capability): seq<Capability> {
    match c
    case TurnProcessing => [Knowledge, Messaging]
    case SalesOrder => [Knowledge, Messaging, TurnProcessing]
    case Campaign | Notifications => [Messaging]
    case TransportCosting | TransportAssetCompliance | TransportProof | TransportToll | TransportAcceptance => [TransportCore]
    case TransportFuel | TransportWorkforce => [TransportCore, TransportCosting]
    case TransportSettlement => [TransportCore, TransportCosting, TransportFuel, TransportAcceptance]
    case TransportCheckpoint | TransportSiteIntake => [TransportCore, TransportProof]
    case Knowledge | Messaging | Operations | TransportCore => []
  }

  const SALES_HANDOFF_FOLLOWUP_WORKFLOW: WorkflowKey := "sales-handoff-followup"

  /** The integration, policy and persona a capability asks for, in that order. */
  function SectionsOf(c: Capability): seq<Section> {
    match c
    case Messaging => [ChannelIntegration, MessagingPersona]
    case TurnProcessing => [ParserIntegration, TurnProcessingPersona]
    case SalesOrder => [SalesOrderPolicy]
    case Campaign => [CampaignPolicy]
    case _ => []
  }

  function ExperienceRequirements(e: Experience): seq<Capability> {
    match e
    case OperationsConsole | B2bSalesOperations => [Knowledge, Messaging, TurnProcessing, SalesOrder, Operations]
    case KnowledgeWorkspace => [Knowledge]
    case AgentWorkforce => [Knowledge, Operations]
    case TransportOperations => [TransportCore]
  }

  /** What is asked for outside the table. */
  function MoreSectionsOf(c: Capability): seq<Section> {
    match c
    case Knowledge => [KnowledgeBootstrap]
    case SalesOrder => [SalesOrderBootstrap, KnowledgePersona]
    case _ => []
  }

  predicate FollowupAsked(config: Config) {
    SalesOrderPolicy in config.sections && config.handoffFollowup.Some? && config.handoffFollowup.value.enabled
  }

  // ----------------------------------------------------------------------------------------
  // The cross-checks
  // ----------------------------------------------------------------------------------------

  datatype Issue =
    | MissingDependency(needer: Capability, needed: Capability)
    | MissingSection(needer: Capability, section: Section)
    | FollowupUnbound
    | ExperienceNeeds(needed: Capability)

  predicate Violates(config: Config, issue: Issue) {
    match issue
    case MissingDependency(needer, needed) =>
      needer in config.capabilities && needed in Dependencies(needer) && needed !in config.capabilities
    case MissingSection(needer, section) =>
      needer in config.capabilities && section in SectionsOf(needer) + MoreSectionsOf(needer) && section !in config.sections
    case FollowupUnbound =>
      FollowupAsked(config) && !Bound(config.workflowEngine, SALES_HANDOFF_FOLLOWUP_WORKFLOW)
    case ExperienceNeeds(needed) =>
      needed in ExperienceRequirements(config.experience) && needed !in config.capabilities
  }

  /** The violations the table's own loop is to report for the first `n` capabilities. */
  predicate TableViolation(config: Config, n: nat, issue: Issue)
    requires n <= |config.capabilities|
  {
    match issue
    case MissingDependency(needer, needed) =>
      needer in config.capabilities[..n] && needed in Dependencies(needer) && needed !in config.capabilities
    case MissingSection(needer, section) =>
      needer in config.capabilities[..n] && section in SectionsOf(needer) && section !in config.sections
    case _ => false
  }

  method MissingDependencies(needer: Capability, enabled: set<Capability>) returns (issues: seq<Issue>)
    ensures forall issue :: issue in issues <==>
      issue.MissingDependency? && issue.needer == needer && issue.needed in Dependencies(needer) && issue.needed !in enabled
  {
    issues := [];
    var dependencies := Dependencies(needer);
    for j := 0 to |dependencies|
      invariant forall issue :: issue in issues <==>
        issue.MissingDependency? && issue.needer == needer && issue.needed in dependencies[..j] && issue.needed !in enabled
    {
      if dependencies[j] !in enabled {
        issues := issues + [MissingDependency(needer, dependencies[j])];
      }
    }
    assert dependencies[..|dependencies|] == dependencies;
  }

  method MissingSections(needer: Capability, wanted: seq<Section>, sections: set<Section>) returns (issues: seq<Issue>)
    ensures forall issue :: issue in issues <==>
      issue.MissingSection? && issue.needer == needer && issue.section in wanted && issue.section !in sections
  {
    issues := [];
    for j := 0 to |wanted|
      invariant forall issue :: issue in issues <==>
        issue.MissingSection? && issue.needer == needer && issue.section in wanted[..j] && issue.section !in sections
    {
      if wanted[j] !in sections {
        issues := issues + [MissingSection(needer, wanted[j])];
      }
    }
    assert wanted[..|wanted|] == wanted;
  }

  method CheckTable(config: Config, enabled: set<Capability>) returns (issues: seq<Issue>)
    requires forall c :: c in enabled <==> c in config.capabilities
    ensures forall issue :: issue in issues <==> TableViolation(config, |config.capabilities|, issue)
  {
    issues := [];
    for k := 0 to |config.capabilities|
      invariant forall issue :: issue in issues <==> TableViolation(config, k, issue)
    {
      var capability := config.capabilities[k];
      var dependencies := MissingDependencies(capability, enabled);
      var sections := MissingSections(capability, SectionsOf(capability), config.sections);
      assert config.capabilities[..k + 1] == config.capabilities[..k] + [capability];
      issues := issues + dependencies + sections;
    }
  }

  /** The issues reported are exactly the violations. */
  method CheckTenantConfig(config: Config) returns (issues: seq<Issue>)
    ensures forall issue :: issue in issues <==> Violates(config, issue)
  {
    var enabled := set c | c in config.capabilities;
    issues := CheckTable(config, enabled);
    assert config.capabilities[..|config.capabilities|] == config.capabilities;
    if Knowledge in enabled {
      var missing := MissingSections(Knowledge, MoreSectionsOf(Knowledge), config.sections);
      issues := issues + missing;
    }
    if SalesOrder in enabled {
      var missing := MissingSections(SalesOrder, MoreSectionsOf(SalesOrder), config.sections);
      issues := issues + missing;
    }
    if FollowupAsked(config) && !Bound(config.workflowEngine, SALES_HANDOFF_FOLLOWUP_WORKFLOW) {
      issues := issues + [FollowupUnbound];
    }
    var required := ExperienceRequirements(config.experience);
    ghost var before := issues;
    for j := 0 to |required|
      invariant forall issue :: issue in issues <==>
        issue in before || (issue.ExperienceNeeds? && issue.needed in required[..j] && issue.needed !in enabled)
    {
      if required[j] !in enabled {
        issues := issues + [ExperienceNeeds(required[j])];
      }
    }
    assert required[..|required|] == required;
  }

  predicate Distinct<T(==)>(s: seq<T>) {
    forall i, j :: 0 <= i < j < |s| ==> s[i] != s[j]
  }

  ghost predicate Accepted(config: Config) {
    && config.capabilities != [] && Distinct(config.capabilities)
    && (config.workflowEngine.Some? ==> AcceptedEngine(config.workflowEngine.value))
    && forall issue :: !Violates(config, issue)
  }

  // ----------------------------------------------------------------------------------------
  // What an accepted configuration guarantees
  // ----------------------------------------------------------------------------------------

  ghost predicate Closed<C(!new)>(table: C -> seq<C>, enabled: set<C>) {
    forall c, d :: c in enabled && d in table(c) ==> d in enabled
  }

  ghost predicate DependencyPath<C>(table: C -> seq<C>, path: seq<C>) {
    path != [] && forall i :: 0 <= i < |path| - 1 ==> path[i + 1] in table(path[i])
  }

  lemma {:induction false} ClosedAlongPath<C(!new)>(table: C -> seq<C>, enabled: set<C>, path: seq<C>)
    requires Closed(table, enabled) && DependencyPath(table, path) && path[0] in enabled
    ensures path[|path| - 1] in enabled
    decreases |path|
  {
    if |path| > 1 {
      assert path[1] in table(path[0]);
      forall i | 0 <= i < |path| - 2 ensures path[1..][i + 1] in table(path[1..][i]) {
        assert path[i + 1 + 1] in table(path[i + 1]);
      }
      ClosedAlongPath(table, enabled, path[1..]);
    }
  }

  /** Whatever the table, checking each enabled capability's own list is checking everything it
      depends on, however indirectly. */
  lemma ClosedIsTransitive<C(!new)>(table: C -> seq<C>, enabled: set<C>)
    ensures Closed(table, enabled) <==>
      forall path :: DependencyPath(table, path) && path[0] in enabled ==> path[|path| - 1] in enabled
  {
    if Closed(table, enabled) {
      forall path | DependencyPath(table, path) && path[0] in enabled ensures path[|path| - 1] in enabled {
        ClosedAlongPath(table, enabled, path);
      }
    } else {
      var c, d :| c in enabled && d in table(c) && d !in enabled;
      var path := [c, d];
      assert DependencyPath(table, path) && path[0] in enabled && path[|path| - 1] == d;
    }
  }

  lemma AcceptedIsClosed(config: Config, enabled: set<Capability>)
    requires forall c :: c in enabled <==> c in config.capabilities
    ensures Closed(Dependencies, enabled) <==> forall needer, needed :: !Violates(config, MissingDependency(needer, needed))
  {
    if forall needer, needed :: !Violates(config, MissingDependency(needer, needed)) {
      forall c, d | c in enabled && d in Dependencies(c) ensures d in enabled {
        assert !Violates(config, MissingDependency(c, d));
      }
    }
  }

  /** Everything the experience of an accepted configuration rests on is enabled. */
  lemma ExperienceIsSupported(config: Config, path: seq<Capability>)
    requires Accepted(config)
    requires DependencyPath(Dependencies, path)
    requires path[0] in ExperienceRequirements(config.experience) || path[0] in config.capabilities
    ensures path[|path| - 1] in config.capabilities
  {
    var enabled := set c | c in config.capabilities;
    AcceptedIsClosed(config, enabled);
    assert !Violates(config, ExperienceNeeds(path[0]));
    ClosedAlongPath(Dependencies, enabled, path);
  }

  function TenantSalesHandoffFollowup(config: Config): Option<Handoff> {
    if SalesOrder !in config.capabilities then None
    else if SalesOrderPolicy in config.sections then config.handoffFollowup
    else None
  }

  /** A follow-up that is switched on has a workflow to run: the lookup at run time finds the one
      binding with its key, enabled, on an engine with a credential. */
  lemma FollowupIsAlwaysBound(config: Config)
    requires Accepted(config)
    requires TenantSalesHandoffFollowup(config).Some? && TenantSalesHandoffFollowup(config).value.enabled
    ensures var found := TenantWorkflowBinding(config.workflowEngine, SALES_HANDOFF_FOLLOWUP_WORKFLOW);
      && found.Some? && found.value.enabled && found.value.key == SALES_HANDOFF_FOLLOWUP_WORKFLOW
      && config.workflowEngine.Some?
      && config.workflowEngine.value.adapter != NoEngine && config.workflowEngine.value.credentialRef.Some?
      && OnlyBinding(config.workflowEngine.value.bindings, found.value)
  {
    assert !Violates(config, FollowupUnbound);
    LookupFindsTheBinding(config.workflowEngine, SALES_HANDOFF_FOLLOWUP_WORKFLOW);
  }

  lemma EdgesGoDown(c: Capability, d: Capability, e: Capability)
    requires d in Dependencies(c)
    ensures Depth(d) < Depth(c)
    ensures e in Dependencies(d) ==> e in Dependencies(c)
  {
  }

  /** The table itself: no capability depends on itself, however indirectly, and every list already
      names all that its members depend on, however indirectly. */
  lemma {:induction false} TableIsTransitive(path: seq<Capability>)
    requires DependencyPath(Dependencies, path) && |path| > 1
    ensures path[|path| - 1] in Dependencies(path[0])
    ensures path[0] != path[|path| - 1]
    decreases |path|
  {
    var c, d := path[0], path[1];
    assert d in Dependencies(c);
    EdgesGoDown(c, d, d);
    if |path| > 2 {
      var rest := path[1..];
      forall i | 0 <= i < |rest| - 1 ensures rest[i + 1] in Dependencies(rest[i]) {
        assert path[i + 1 + 1] in Dependencies(path[i + 1]);
      }
      TableIsTransitive(rest);
      EdgesGoDown(c, d, path[|path| - 1]);
      EdgesGoDown(c, path[|path| - 1], d);
    }
  }

  function Depth(c: Capability): nat {
    match c
    case Knowledge | Messaging | Operations | TransportCore => 0
    case TransportFuel | TransportWorkforce | TransportCheckpoint | TransportSiteIntake | SalesOrder => 2
    case TransportSettlement => 3
    case _ => 1
  }

  // ----------------------------------------------------------------------------------------
  // Acceptance, spelled out
  // ----------------------------------------------------------------------------------------

  /** A follow-up that is absent or switched off never makes a configuration invalid; one that is switched
      on does, exactly when no enabled binding has the workflow's key. */
  lemma FollowupIssue(config: Config)
    ensures Violates(config, FollowupUnbound) <==>
      && SalesOrderPolicy in config.sections
      && config.handoffFollowup.Some? && config.handoffFollowup.value.enabled
      && (config.workflowEngine.None?
          || forall b :: b in config.workflowEngine.value.bindings ==> b.key != "sales-handoff-followup" || !b.enabled)
  {
  }

  predicate Has(config: Config, capabilities: seq<Capability>, sections: seq<Section>) {
    && (forall i :: 0 <= i < |capabilities| ==> capabilities[i] in config.capabilities)
    && (forall i :: 0 <= i < |sections| ==> sections[i] in config.sections)
  }

  /** What each capability needs. */
  predicate Supported(config: Config, c: Capability) {
    match c
    case Knowledge => Has(config, [], [KnowledgeBootstrap])
    case Messaging => Has(config, [], [ChannelIntegration, MessagingPersona])
    case TurnProcessing => Has(config, [Knowledge, Messaging], [ParserIntegration, TurnProcessingPersona])
    case SalesOrder =>
      Has(config, [Knowledge, Messaging, TurnProcessing], [SalesOrderPolicy, SalesOrderBootstrap, KnowledgePersona])
    case Campaign => Has(config, [Messaging], [CampaignPolicy])
    case Notifications => Has(config, [Messaging], [])
    case Operations => true
    case TransportCore => true
    case TransportCosting => Has(config, [TransportCore], [])
    case TransportFuel => Has(config, [TransportCore, TransportCosting], [])
    case TransportSettlement => Has(config, [TransportCore, TransportCosting, TransportFuel, TransportAcceptance], [])
    case TransportAssetCompliance => Has(config, [TransportCore], [])
    case TransportWorkforce => Has(config, [TransportCore, TransportCosting], [])
    case TransportProof => Has(config, [TransportCore], [])
    case TransportCheckpoint => Has(config, [TransportCore, TransportProof], [])
    case TransportSiteIntake => Has(config, [TransportCore, TransportProof], [])
    case TransportToll => Has(config, [TransportCore], [])
    case TransportAcceptance => Has(config, [TransportCore], [])
  }

  /** What each experience needs. */
  predicate Experienced(config: Config) {
    match config.experience
    case OperationsConsole => Has(config, [Knowledge, Messaging, TurnProcessing, SalesOrder, Operations], [])
    case KnowledgeWorkspace => Has(config, [Knowledge], [])
    case AgentWorkforce => Has(config, [Knowledge, Operations], [])
    case TransportOperations => Has(config, [TransportCore], [])
    case B2bSalesOperations => Has(config, [Knowledge, Messaging, TurnProcessing, SalesOrder, Operations], [])
  }

  ghost predicate NoIssueOf(config: Config, c: Capability) {
    && (forall d :: d in Dependencies(c) ==> d in config.capabilities)
    && (forall s :: s in SectionsOf(c) + MoreSectionsOf(c) ==> s in config.sections)
  }

  lemma SupportedMeansNoIssue(config: Config, c: Capability)
    ensures Supported(config, c) <==> NoIssueOf(config, c)
  {
    var sections := SectionsOf(c) + MoreSectionsOf(c);
    SameNeeds(config, Dependencies(c), sections);
    match c {
      case Knowledge => assert sections == [KnowledgeBootstrap];
      case Messaging => assert sections == [ChannelIntegration, MessagingPersona];
      case TurnProcessing => assert sections == [ParserIntegration, TurnProcessingPersona];
      case SalesOrder => assert sections == [SalesOrderPolicy, SalesOrderBootstrap, KnowledgePersona];
      case Campaign => assert sections == [CampaignPolicy];
      case _ => assert sections == [];
    }
  }

  lemma SameNeeds(config: Config, capabilities: seq<Capability>, sections: seq<Section>)
    ensures Has(config, capabilities, sections) <==>
      && (forall d :: d in capabilities ==> d in config.capabilities)
      && (forall s :: s in sections ==> s in config.sections)
  {
  }

  /** A configuration is accepted exactly when its capabilities are listed once each and there are some, its
      engine is accepted, every capability and the experience have what they need, and a follow-up that is
      switched on has an enabled binding. */
  lemma AcceptedExactly(config: Config)
    ensures Accepted(config) <==>
      && config.capabilities != [] && Distinct(config.capabilities)
      && (config.workflowEngine.Some? ==> AcceptedEngine(config.workflowEngine.value))
      && (forall c :: c in config.capabilities ==> Supported(config, c))
      && Experienced(config)
      && !Violates(config, FollowupUnbound)
  {
    forall c ensures Supported(config, c) <==> NoIssueOf(config, c) { SupportedMeansNoIssue(config, c); }
    SameNeeds(config, ExperienceRequirements(config.experience), []);
    NoIssues(config);
  }

  lemma NoIssues(config: Config)
    ensures (forall issue :: !Violates(config, issue)) <==>
      && (forall c :: c in config.capabilities ==> NoIssueOf(config, c))
      && (forall d :: d in ExperienceRequirements(config.experience) ==> d in config.capabilities)
      && !Violates(config, FollowupUnbound)
  {
    if forall issue :: !Violates(config, issue) {
      forall c | c in config.capabilities ensures NoIssueOf(config, c) {
        forall d | d in Dependencies(c) ensures d in config.capabilities {
          assert !Violates(config, MissingDependency(c, d));
        }
        forall s | s in SectionsOf(c) + MoreSectionsOf(c) ensures s in config.sections {
          assert !Violates(config, MissingSection(c, s));
        }
      }
      forall d | d in ExperienceRequirements(config.experience) ensures d in config.capabilities {
        assert !Violates(config, ExperienceNeeds(d));
      }
    }
  }

  /** The follow-up of a tenant is the one configured, and none without the sales-order capability or its
      policy. */
  lemma FollowupRead(config: Config)
    ensures TenantSalesHandoffFollowup(config)
         == if SalesOrder in config.capabilities && SalesOrderPolicy in config.sections then config.handoffFollowup
            else None
  {
  }
}
