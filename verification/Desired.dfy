/** Desired, applied and journalled state of the reconciler. */
module Desired {
  import opened Prelude

  type CoreId = string

  /** Text of a runtime configuration; the reconciler never looks inside. */
  type Config = string

  datatype Status = Pending | Applying | Applied | Failed | RolledBack | Unsupported | RecoveryRequired

  datatype Phase =
    | PreparedPhase | StagedPhase | ValidatedPhase | SnapshottedPhase | InstalledPhase | ActivatedPhase
    | HealthyPhase | PublishingPhase | PublishedPhase | RollbackStarted | RolledBackPhase | RecoveryPhase

  datatype ListenerClaim = ListenerClaim(udp: bool, port: nat)

  datatype ServerFragment = ServerFragment(
    profileId: string, payload: Config, expectedUserIds: Option<set<string>>, listeners: seq<ListenerClaim>)

  datatype CorePlan = CorePlan(generation: nat, coreId: CoreId, fragments: seq<ServerFragment>)

  datatype ProxyRole = AutoSafe | Speed | Compatibility | RuAccess | Manual

  datatype Profile = Profile(
    name: string, protocolId: string, schemaVersion: nat, role: ProxyRole, enabled: bool,
    preferredCore: Option<CoreId>, config: Config)

  datatype SubscriptionUser = SubscriptionUser(username: string, uuid: string, token: string)

  datatype InfrastructureResource = InfrastructureResource(
    resourceId: string, adapterId: CoreId, schemaVersion: nat, enabled: bool, dependencies: seq<string>,
    listeners: seq<ListenerClaim>, config: Config, configIsObject: bool)

  datatype DesiredState = DesiredState(
    generation: nat, profiles: seq<Profile>, users: seq<SubscriptionUser>, infrastructure: seq<InfrastructureResource>)

  /** The last generation that was verified and published. */
  datatype AppliedState = AppliedState(generation: nat, activeCoreIds: seq<CoreId>)

  /** `<transaction root>/<generation>/<core>`: where one core keeps its snapshot. */
  datatype SnapshotPath = SnapshotPath(generation: nat, coreId: CoreId)

  datatype JournalResource = JournalResource(
    coreId: CoreId, path: SnapshotPath, wasEnabled: bool, wasActive: bool, mutationStarted: bool, verified: bool)

  datatype Journal = Journal(
    generation: nat, previousGeneration: nat, previousActive: seq<CoreId>, phase: Phase, status: Status,
    coreIds: seq<CoreId>, current: Option<CoreId>, resources: seq<JournalResource>)

  /** What one managed service currently runs. */
  datatype Runtime = Runtime(config: Config, enabled: bool, active: bool)

  /** Everything that survives a crash of the worker. */
  datatype Durable = Durable(
    journal: Option<Journal>, applied: AppliedState, live: map<CoreId, Runtime>, files: map<SnapshotPath, Config>)

  function Prepared(generation: nat, applied: AppliedState): Journal {
    Journal(generation, applied.generation, applied.activeCoreIds, PreparedPhase, Pending, [], None, [])
  }
}
