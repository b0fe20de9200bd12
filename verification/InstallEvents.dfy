/** The vocabulary of the install transaction: steps, units of work, receipts and journal payloads. */
module InstallEvents {
  import opened Wrappers

  datatype StepId =
    | ValidateInputs
    | CreateIdentityBroker
    | CreateIdentityRunner
    | CreateIdentityAnchor
    | InstallBrokerCode
    | InstallRuntime
    | InstallRelease
    | InstallLauncher
    | PrecreateDurableLeaves
    | VerifyInstalledAncestry
    | ProvisionSigningKey
    | InstallLaunchdPlists
    | BootstrapLauncher
    | BootstrapAnchor
    | BootstrapBroker
    | RegisterAuthority

  const INSTALL_STEPS: seq<StepId> := [
    ValidateInputs, CreateIdentityBroker, CreateIdentityRunner, CreateIdentityAnchor,
    InstallBrokerCode, InstallRuntime, InstallRelease, InstallLauncher,
    PrecreateDurableLeaves, VerifyInstalledAncestry, ProvisionSigningKey, InstallLaunchdPlists,
    BootstrapLauncher, BootstrapAnchor, BootstrapBroker, RegisterAuthority
  ]

  function StepIndex(step: StepId): (i: nat)
    ensures i < |INSTALL_STEPS| && INSTALL_STEPS[i] == step
  {
    match step
    case ValidateInputs => 0
    case CreateIdentityBroker => 1
    case CreateIdentityRunner => 2
    case CreateIdentityAnchor => 3
    case InstallBrokerCode => 4
    case InstallRuntime => 5
    case InstallRelease => 6
    case InstallLauncher => 7
    case PrecreateDurableLeaves => 8
    case VerifyInstalledAncestry => 9
    case ProvisionSigningKey => 10
    case InstallLaunchdPlists => 11
    case BootstrapLauncher => 12
    case BootstrapAnchor => 13
    case BootstrapBroker => 14
    case RegisterAuthority => 15
  }

  /** How many base operations the backend roster lists for a step. */
  function OperationCount(step: StepId): nat {
    match step
    case ValidateInputs => 6
    case CreateIdentityBroker => 8
    case CreateIdentityRunner => 8
    case CreateIdentityAnchor => 8
    case InstallBrokerCode => 4
    case InstallRuntime => 4
    case InstallRelease => 4
    case InstallLauncher => 2
    case PrecreateDurableLeaves => 7
    case VerifyInstalledAncestry => 3
    case ProvisionSigningKey => 5
    case InstallLaunchdPlists => 4
    case BootstrapLauncher => 2
    case BootstrapAnchor => 2
    case BootstrapBroker => 2
    case RegisterAuthority => 5
  }

  datatype RollbackId =
    | WithdrawAuthority
    | StopBroker
    | StopAnchor
    | StopLauncher
    | ArchiveDurableEvidence
    | QuarantineSigningKey
    | RemoveMutableState
    | RemoveInstalledCode
    | RemoveCreatedIdentities

  /** The rollback table, in execution order. */
  const ROLLBACK_TABLE: seq<RollbackId> := [
    WithdrawAuthority, StopBroker, StopAnchor, StopLauncher, ArchiveDurableEvidence,
    QuarantineSigningKey, RemoveMutableState, RemoveInstalledCode, RemoveCreatedIdentities
  ]

  function TableIndex(action: RollbackId): (i: nat)
    ensures i < |ROLLBACK_TABLE| && ROLLBACK_TABLE[i] == action
  {
    match action
    case WithdrawAuthority => 0
    case StopBroker => 1
    case StopAnchor => 2
    case StopLauncher => 3
    case ArchiveDurableEvidence => 4
    case QuarantineSigningKey => 5
    case RemoveMutableState => 6
    case RemoveInstalledCode => 7
    case RemoveCreatedIdentities => 8
  }

  function Sources(action: RollbackId): set<StepId> {
    match action
    case WithdrawAuthority => {RegisterAuthority}
    case StopBroker => {BootstrapBroker}
    case StopAnchor => {BootstrapAnchor}
    case StopLauncher => {BootstrapLauncher}
    case ArchiveDurableEvidence => {PrecreateDurableLeaves, ProvisionSigningKey}
    case QuarantineSigningKey => {ProvisionSigningKey}
    case RemoveMutableState => {PrecreateDurableLeaves}
    case RemoveInstalledCode =>
      {InstallBrokerCode, InstallRuntime, InstallRelease, InstallLauncher, InstallLaunchdPlists}
    case RemoveCreatedIdentities => {CreateIdentityBroker, CreateIdentityRunner, CreateIdentityAnchor}
  }

  /** A unit of work inside a step: the position of its base operation in the step's roster, and the
      suffix that tells the units of one base operation apart. */
  datatype Operation = Operation(base: nat, suffix: string)

  datatype Unit = Unit(step: StepId, operation: Operation)

  datatype Receipt =
    | OperationReceipt(unit: Unit)
    | StepReceipt(step: StepId)
    | PartialReceipt(step: StepId, operations: seq<Operation>)

  datatype Binding = Binding(plan: string, bundle: string, bundleFile: string)

  datatype Event =
    | TransactionStart
    | StepStart(step: StepId)
    | OperationStart(unit: Unit)
    | OperationComplete(unit: Unit, owned: Option<Receipt>)
    | StepComplete(step: StepId, stepOwned: Option<Receipt>)
    | PlanComplete
    | RollbackStart(action: RollbackId)
    | RollbackComplete(action: RollbackId)
    | RollbackFailed(action: RollbackId)
    | RollbackRetainedAmbiguous(action: RollbackId)
    | RecoveryComplete
    | RecoveryFailed

  /** The ownership receipt of a whole step: steps without a target to undo have none. */
  function StepOwnership(step: StepId): Option<Receipt> {
    if step.ValidateInputs? || step.VerifyInstalledAncestry? then None else Some(StepReceipt(step))
  }

  /** The step completions that the installer writes carry the receipt of their step. */
  predicate RightReceipt(event: Event) {
    event.StepComplete? ==> event.stepOwned == StepOwnership(event.step)
  }

  predicate Undoes(action: RollbackId, step: StepId) {
    step in Sources(action)
  }

  /** A step has a receipt, naming itself, exactly when some rollback action undoes it. */
  lemma OwnershipIff(step: StepId)
    ensures StepOwnership(step).Some? <==> exists action :: Undoes(action, step)
    ensures StepOwnership(step).Some? ==> StepOwnership(step).value == StepReceipt(step)
  {
    assert Undoes(WithdrawAuthority, RegisterAuthority) && Undoes(StopBroker, BootstrapBroker);
    assert Undoes(StopAnchor, BootstrapAnchor) && Undoes(StopLauncher, BootstrapLauncher);
    assert Undoes(QuarantineSigningKey, ProvisionSigningKey) && Undoes(RemoveMutableState, PrecreateDurableLeaves);
    assert Undoes(RemoveInstalledCode, InstallBrokerCode) && Undoes(RemoveInstalledCode, InstallRuntime);
    assert Undoes(RemoveInstalledCode, InstallRelease) && Undoes(RemoveInstalledCode, InstallLauncher);
    assert Undoes(RemoveInstalledCode, InstallLaunchdPlists);
    assert Undoes(RemoveCreatedIdentities, CreateIdentityBroker) && Undoes(RemoveCreatedIdentities, CreateIdentityRunner);
    assert Undoes(RemoveCreatedIdentities, CreateIdentityAnchor);
  }

  // ---------------------------------------------------------------- the order of steps and actions

  /** What a step is about. */
  datatype Phase = Inputs | Identities | Code | Leaves | Ancestry | SigningKey | Plists | Services | Authority

  function PhaseOf(step: StepId): Phase {
    match step
    case ValidateInputs => Inputs
    case CreateIdentityBroker => Identities
    case CreateIdentityRunner => Identities
    case CreateIdentityAnchor => Identities
    case InstallBrokerCode => Code
    case InstallRuntime => Code
    case InstallRelease => Code
    case InstallLauncher => Code
    case PrecreateDurableLeaves => Leaves
    case VerifyInstalledAncestry => Ancestry
    case ProvisionSigningKey => SigningKey
    case InstallLaunchdPlists => Plists
    case BootstrapLauncher => Services
    case BootstrapAnchor => Services
    case BootstrapBroker => Services
    case RegisterAuthority => Authority
  }

  /** What must be there before: inputs are validated first; identities own the code, code and leaves are
      measured before the key is provisioned, and nothing is registered before all services are up. */
  predicate Needs(later: Phase, earlier: Phase) {
    match later
    case Inputs => false
    case Identities => earlier == Inputs
    case Code => earlier in {Inputs, Identities}
    case Leaves => earlier in {Inputs, Identities, Code}
    case Ancestry => earlier in {Inputs, Identities, Code, Leaves}
    case SigningKey => earlier in {Inputs, Identities, Code, Leaves, Ancestry}
    case Plists => earlier in {Inputs, Identities, Code, Leaves, Ancestry, SigningKey}
    case Services => earlier !in {Services, Authority}
    case Authority => earlier != Authority
  }

  /** The steps are executed in an order that meets every need, each step once. */
  lemma StepsMeetNeeds(i: nat, j: nat)
    requires i < |INSTALL_STEPS| && j < |INSTALL_STEPS|
    ensures Needs(PhaseOf(INSTALL_STEPS[j]), PhaseOf(INSTALL_STEPS[i])) ==> i < j
    ensures i != j ==> INSTALL_STEPS[i] != INSTALL_STEPS[j]
    ensures |INSTALL_STEPS| == 16
  {
    assert StepIndex(INSTALL_STEPS[i]) == i && StepIndex(INSTALL_STEPS[j]) == j;
  }

  /** The first step that the action undoes, in the order of execution. */
  predicate Earliest(action: RollbackId, step: StepId) {
    Undoes(action, step) && forall other :: other in Sources(action) ==> StepIndex(step) <= StepIndex(other)
  }

  function EarliestOf(action: RollbackId): (step: StepId)
    ensures Earliest(action, step)
  {
    match action
    case WithdrawAuthority => RegisterAuthority
    case StopBroker => BootstrapBroker
    case StopAnchor => BootstrapAnchor
    case StopLauncher => BootstrapLauncher
    case ArchiveDurableEvidence => PrecreateDurableLeaves
    case QuarantineSigningKey => ProvisionSigningKey
    case RemoveMutableState => PrecreateDurableLeaves
    case RemoveInstalledCode => InstallBrokerCode
    case RemoveCreatedIdentities => CreateIdentityBroker
  }

  /** The rollback table undoes the steps backwards, the authority first and the identities last: of two
      actions the one whose earliest step came later is run first.  The one exception is the archive of
      the durable evidence, which is made before anything that it covers is taken away, and after every
      action on later steps. */
  lemma RollbackRunsBackwards(a: RollbackId, b: RollbackId)
    ensures TableIndex(WithdrawAuthority) == 0 && TableIndex(RemoveCreatedIdentities) == |ROLLBACK_TABLE| - 1 == 8
    ensures a != ArchiveDurableEvidence && b != ArchiveDurableEvidence ==>
              (TableIndex(a) < TableIndex(b) <==> StepIndex(EarliestOf(b)) < StepIndex(EarliestOf(a)))
    ensures Sources(b) < Sources(a) ==> TableIndex(a) < TableIndex(b)
    ensures (forall s, t :: s in Sources(a) && t in Sources(b) ==> StepIndex(t) < StepIndex(s)) ==> TableIndex(a) < TableIndex(b)
  {
    SourcesCompared(a, b);
  }

  lemma SourcesCompared(a: RollbackId, b: RollbackId)
    ensures Sources(b) < Sources(a) ==> TableIndex(a) < TableIndex(b)
    ensures (forall s, t :: s in Sources(a) && t in Sources(b) ==> StepIndex(t) < StepIndex(s)) ==> TableIndex(a) < TableIndex(b)
  {
    assert EarliestOf(a) in Sources(a) && EarliestOf(b) in Sources(b);
    if a.ArchiveDurableEvidence? {
      assert ProvisionSigningKey in Sources(a);
    }
    if b.ArchiveDurableEvidence? {
      assert ProvisionSigningKey in Sources(b);
    }
  }

  datatype Payload = Payload(transaction: nat, binding: Binding, event: Event)
}
