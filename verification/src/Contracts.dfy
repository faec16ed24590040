/** The wire vocabulary a decision reads: addresses, capabilities, grants, contexts. */
module Contracts {
  import opened Foundations

  datatype Address =
    | Human(userId: Text)
    | Agent(agentId: Text)
    | Group(conversationId: Text)
    | Service(serviceId: Text)

  /** `owner` absent means "whoever owns the world of the context the resource is read in". */
  datatype Resource = Resource(namespace: Text, path: seq<Text>, owner: Option<Address>)

  datatype Scope = Exact | Descendants

  datatype Capability = Capability(resource: Resource, actions: seq<Text>, scope: Scope)

  /** A timestamp string together with what `Date.parse` makes of it, in milliseconds. */
  datatype Timestamp = Readable(text: Text, at: int) | Unreadable(text: Text)

  datatype Constraints = Constraints(
    purposes: Option<seq<Text>>,
    notBefore: Option<Timestamp>,
    expiresAt: Option<Timestamp>,
    maxUses: Option<int>,
    delegationDepth: Option<int>)

  datatype Grant = Grant(
    id: Text,
    namespaceId: Text,
    subject: Address,
    issuer: Address,
    capabilities: seq<Capability>,
    constraints: Constraints,
    issuedAt: Timestamp,
    revokedAt: Option<Timestamp>,
    parentGrantId: Option<Text>)

  datatype Context = Context(
    namespaceId: Text,
    executionId: Option<Text>,
    actor: Address,
    authority: Address,
    owner: Address,
    purpose: Text,
    traceId: Text,
    enabledToolNamespaces: seq<Text>,
    now: Timestamp)

  datatype Requirement = Requirement(resource: Resource, action: Text)

  /** The action that stands for every action. */
  const WILDCARD: Text := [0x2A]

  /** The instant the turn was admitted at, and the instant of the operation. */
  datatype Instants = Instants(admittedAt: int, now: int)
}
