/**
 The tables, columns and catalog names that the identity migrations speak of. Each is a number, so
 that different names are different values; the constant is its SQL name in camel case.
 */
module Schema {

  newtype Table = n: int | 0 <= n
  const Agents: Table := 0
  const AssetSecurityState: Table := 1
  const AttackPaths: Table := 2
  const CveMatches: Table := 3
  const EventsIndex: Table := 4
  const ExceptionPolicies: Table := 5
  const Insights: Table := 6
  const MalwareMatches: Table := 7
  const PodAttackSteps: Table := 8
  const PodCapabilities: Table := 9
  const PodImageScans: Table := 10
  const PodInstances: Table := 11
  const PodNetworkConnections: Table := 12
  const PodProcesses: Table := 13
  const PodRiskProfiles: Table := 14
  const PodRuntimeMetrics: Table := 15
  const PolicyViolations: Table := 16
  const RiskScores: Table := 17
  const RuntimeBehaviorFacts: Table := 18
  const RuntimeEvents: Table := 19
  const RuntimeIncidents: Table := 20
  const RuntimeSignals: Table := 21
  const Sboms: Table := 22

  newtype Column = n: int | 0 <= n
  const ClusterId: Column := 0
  const PodUid: Column := 1
  const ResourceUid: Column := 2
  const ResourceType: Column := 3
  const CapabilityId: Column := 4
  const PathId: Column := 5
  const StepId: Column := 6
  const ContainerName: Column := 7
  const CveId: Column := 8
  const InsightType: Column := 9
  const AgentId: Column := 10
  const DeletedAt: Column := 11

  newtype Name = n: int | 0 <= n
  const IdxPodCapabilityIdentity: Name := 0
  const IdxAssetSecurityStateIdentity: Name := 1
  const IdxPodRiskProfileIdentity: Name := 2
  const IdxAttackPathIdentity: Name := 3
  const IdxPodImageScanIdentity: Name := 4
  const IdxInsightResourceIdentity: Name := 5
  const IdxAgentsClusterAgent: Name := 6
  const IdxPodAttackStepIdentityGuard: Name := 7
  const IdxPodInstanceIdentityGuard: Name := 8
  const PodAttackStepsPkey: Name := 9
  const PodInstancesPkey: Name := 10
  const IdxPodCapabilitiesUnique: Name := 11
  const IdxAssetSecurityStatePodUid: Name := 12
  const IdxPodRiskProfilesUnique: Name := 13
  const UqAttackPathsPodPath: Name := 14
  const IdxPodImageScansUniquePodUidContainerName: Name := 15
  const IdxPodImageScansUniquePodUidContainerNameAll: Name := 16
  const IdxInsightsUniqueResourceCveType: Name := 17
  const IdxInsightsUniqueResourceCveTypeAll: Name := 18
  const IdxAgentsAgentId: Name := 19
  const AgentsAgentIdKey: Name := 20

  /** Replaced by a composite key: numbered from the first such name on. */
  predicate IsLegacy(n: Name) { IdxPodCapabilitiesUnique <= n }
}
