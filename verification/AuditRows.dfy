/** The ledger rows an agent-query audit chain is gathered from and assembled out of
    (apps/dashboard/lib/agent-query-chain.ts).  A payload field is absent when it is missing or is
    not of the type the code asks for. */
module AuditRows {
  import opened Sequences
  import opened Sorting

  datatype Payload = Payload(
    auditTrailId: Option<string>, originalQueryId: Option<string>, agentQueryId: Option<string>,
    causedBy: Option<string>, phase: Option<string>, mcpTool: Option<string>, routeMode: Option<string>,
    agentId: Option<string>, kind: Option<string>, credentialKind: Option<string>,
    ttlExpiresAt: Option<string>, issuedBy: Option<string>, passed: Option<bool>, status: Option<string>,
    latencyMs: Option<real>, costUsd: Option<real>)

  datatype Row = Row(seqNo: nat, envelopeKind: string, ts: int, hashHex: string, payload: Payload)

  function KeyOf(r: Row): Key {
    Key(r.ts, r.seqNo)
  }

  predicate IsAgentQuery(p: Payload) {
    p.auditTrailId.Some? && p.phase.Some? && p.mcpTool.Some? && p.routeMode.Some?
  }

  predicate IsCredential(p: Payload) {
    (p.credentialKind == Some("data") || p.credentialKind == Some("model")) && p.ttlExpiresAt.Some? && p.issuedBy.Some?
  }

  function EffectiveKind(envelopeKind: string, p: Payload): string {
    if IsAgentQuery(p) then "agent_query"
    else if IsCredential(p) then "credential"
    else if p.kind.Some? then p.kind.value
    else envelopeKind
  }

  predicate NonEmpty(s: Option<string>) {
    s.Some? && s.value != ""
  }

  function PickAuditTrailId(p: Payload): Option<string> {
    if NonEmpty(p.auditTrailId) then p.auditTrailId
    else if NonEmpty(p.agentQueryId) then p.agentQueryId
    else if NonEmpty(p.originalQueryId) then p.originalQueryId
    else None
  }

  function PickCausedBy(p: Payload): Option<string> {
    if NonEmpty(p.causedBy) then p.causedBy
    else if NonEmpty(p.originalQueryId) then p.originalQueryId
    else if NonEmpty(p.agentQueryId) then p.agentQueryId
    else None
  }

  datatype Phase = Propose | Execute | Verify | Resolve

  function PickPhase(p: Payload): Option<Phase> {
    if p.phase == Some("propose") then Some(Propose)
    else if p.phase == Some("execute") then Some(Execute)
    else if p.phase == Some("verify") then Some(Verify)
    else if p.phase == Some("resolve") then Some(Resolve)
    else None
  }

  /** The trail id as the query computes it; unlike `PickAuditTrailId`, the first id present wins
      even when it is empty, and `original_query_id` comes before `agent_query_id`. */
  function Trail(p: Payload): Option<string> {
    if p.auditTrailId.Some? then p.auditTrailId
    else if p.originalQueryId.Some? then p.originalQueryId
    else p.agentQueryId
  }
}
