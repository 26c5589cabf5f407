/** Synchronisation gates. */
module SyncGate {
  import opened Text
  import opened Resources

  datatype SyncGateStatus = NEEDS_SYNC | SYNC_REQUESTED | SYNC_ACKED | READY_TO_CONTINUE | CANCELLED

  datatype PolicyKind = ALL_REQUIRED | QUORUM_ACK

  datatype TimeoutAction = TIMEOUT_ESCALATE | TIMEOUT_CANCEL | TIMEOUT_AWAIT_DECISION

  /** Deadlines are instants; None stands for an absent or empty field. */
  datatype GatePolicy = GatePolicy(kind: PolicyKind, quorum: Option<nat>, deadlineAt: Option<int>,
                                   leaseExpiresAt: Option<int>, escalationAgentIds: seq<string>,
                                   timeoutAction: TimeoutAction)

  datatype Gate = Gate(id: string, sessionId: string, taskId: string, requestedByAgentId: string,
                       requiredAgentIds: seq<string>, ackedAgentIds: seq<string>,
                       relatedFiles: seq<string>, relatedResources: seq<ResourceRef>,
                       status: SyncGateStatus, policy: GatePolicy)

  predicate IsGateBlocking(g: Gate) {
    g.status != READY_TO_CONTINUE && g.status != CANCELLED
  }
}
