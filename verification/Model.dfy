/**
 The protocol's values: handoffs, the three signed encodings, authority statuses, actions,
 and the messages that carry them.

 A content identifier is SHA-256 over domain-separated canonical bytes; `Digest` idealises it
 as a free term, one constructor per domain label, so two digests are equal exactly when label
 and content are. `OpaqueDigest` is a well-formed hash string of which no preimage is at hand.
 Signatures are idealised the same way: a term naming the key and the signed content.
 (The bytes that are hashed and signed are the subject of module CanonicalJson.)
 */
module Model {
  import opened Common

  const MAX_REDELEGATIONS: nat := 32

  datatype Party = Party(principal: Id, agent: Id, key: Id)

  datatype EventType = Delegation | ActionIntent

  datatype Scope = Scope(
    operations: set<Id>, resources: set<Id>, currency: Id, maxAmount: nat,
    notBefore: Time, notAfter: Time, redelegations: nat)
  {
    predicate Valid() {
      && operations != {} && resources != {}
      && maxAmount <= MAX_SAFE_INTEGER
      && notBefore < notAfter
      && redelegations <= MAX_REDELEGATIONS
    }
  }

  /** The delegated authority a chain lives under. */
  datatype Lineage = Lineage(issuer: Id, subject: Id, subjectKey: Id)

  /** The semantic handoff shared by all three representations. */
  datatype Handoff = Handoff(
    interaction: Id, sender: Party, receiver: Party, event: EventType, sequence: nat,
    previous: Option<Id>, scope: Scope, lineage: Lineage, version: nat, statusId: Digest,
    createdAt: Time, requestHash: Digest)
  {
    predicate Valid() {
      && sender.principal != receiver.principal
      && sequence <= MAX_SAFE_INTEGER
      && 1 <= version <= MAX_SAFE_INTEGER
      && scope.Valid()
    }

    function SenderSlot(): SequenceKey {
      SequenceKey(sender.principal, sender.key, sequence)
    }
  }

  datatype SequenceKey = SequenceKey(principal: Id, key: Id, sequence: nat)

  datatype Action = Action(nonce: Id, operation: Id, resource: Id, currency: Id, amount: nat)

  datatype StatusState = Active | Revoked

  datatype Status = Status(
    issuer: Id, issuerKey: Id, subject: Id, subjectKey: Id, version: nat, state: StatusState,
    issuedAt: Time, freshUntil: Time)
  {
    predicate Valid() {
      1 <= version <= MAX_SAFE_INTEGER && issuedAt < freshUntil
    }

    function LineageOf(): Lineage {
      Lineage(issuer, subject, subjectKey)
    }
  }

  datatype Digest =
    | OpaqueDigest(n: nat)
    | ActionDigest(action: Action)
    | StatusDigest(status: Status)
    | HandoffDigest(handoff: Handoff)
    | ChainDigest(handoffIds: seq<Digest>)
    | ReplayScopeDigest(lineage: Lineage, version: nat)
    | InteractionKeyDigest(interaction: Id)
    | SequenceKeyDigest(sequenceKey: SequenceKey)
    | RecordDigest(record: EndpointRecord)
    | ReceiptDigest(receipt: Receipt)

  datatype Role = Sender | Receiver

  datatype Decision = Accept | Reject

  datatype Signature =
    | EndpointSignature(key: nat, endpoint: EndpointBody)
    | ProposalSignature(key: nat, proposal: Proposal)
    | CompletionSignature(key: nat, completed: Proposal, sender: Signature,
                          decision: Decision, reason: Option<Id>, decidedAt: Time)
    | StatusSignature(key: nat, status: Status)
    | ForgedSignature(n: nat)

  /** SL and CR: one record per endpoint; a CR receiver record also names the sender record. */
  datatype EndpointBody = EndpointBody(
    role: Role, holder: Party, handoff: Handoff, senderRecord: Option<Digest>,
    decision: Option<Decision>, reason: Option<Id>, decidedAt: Option<Time>)

  datatype EndpointRecord = EndpointRecord(body: EndpointBody, signature: Signature)
  {
    function RecordId(): Digest {
      RecordDigest(this)
    }

    /** What `EndpointRecord.from_dict` accepts. */
    predicate WellFormed() {
      && body.handoff.Valid()
      && body.holder == (if body.role == Sender then body.handoff.sender else body.handoff.receiver)
      && (body.role == Sender ==>
            body.senderRecord == None && body.decision == None && body.reason == None && body.decidedAt == None)
      && (body.role == Receiver ==>
            && body.decision.Some? && body.decidedAt.Some?
            && body.decidedAt.value >= body.handoff.createdAt
            && (body.decision.value == Accept <==> body.reason == None))
    }
  }

  /** PR: one doubly signed receipt, whose parent reference is the parent's receipt digest. */
  datatype Proposal = Proposal(
    interaction: Id, event: EventType, createdAt: Time, nonce: Id, sender: Party, receiver: Party,
    sequence: nat, previousReceipt: Option<Digest>, scope: Scope, lineage: Lineage, version: nat,
    statusId: Digest, requestHash: Digest)
  {
    function SenderSlot(): SequenceKey {
      SequenceKey(sender.principal, sender.key, sequence)
    }
  }

  datatype Receipt = Receipt(
    proposal: Proposal, senderSignature: Signature, boundSenderSignature: Signature,
    decision: Decision, reason: Option<Id>, decidedAt: Time, receiverSignature: Signature)
  {
    function ReceiptId(): Digest {
      ReceiptDigest(this)
    }

    /** What `_parse_p0_receipt` accepts. It does not ask for two different principals. */
    predicate WellFormed() {
      && proposal.sequence <= MAX_SAFE_INTEGER
      && 1 <= proposal.version <= MAX_SAFE_INTEGER
      && proposal.scope.Valid()
      && boundSenderSignature == senderSignature
      && decidedAt >= proposal.createdAt
      && (decision == Accept <==> reason == None)
    }
  }

  datatype SignedStatus = SignedStatus(status: Status, signature: Signature)

  datatype Payload =
    | EndpointPayload(record: EndpointRecord)
    | ReceiptPayload(receipt: Receipt)
    | StatusPayload(signed: SignedStatus)
    | OtherPayload(n: nat)

  datatype PayloadKind =
    SignedEndpointRecord | CrossReferencedRecord | ReceiptKind | AuthorityStatus | ProtocolSignal

  /** An evidence message. Its message id is the digest of exactly these fields. */
  datatype Message = Message(
    slot: Id, origin: Id, destination: Id, sentAt: Time, kind: PayloadKind, payload: Payload)

  datatype Representation = SL | CR | PR

  datatype TrustedKey = TrustedKey(principal: Id, publicKey: nat, forReceipts: bool, forStatuses: bool)

  datatype StoreBinding = StoreBinding(principal: Id, roles: set<Role>)

  /** What a validation run is given besides the messages. */
  datatype Environment = Environment(
    keys: map<Id, TrustedKey>, stores: map<Id, StoreBinding>, cutoff: Time, skew: nat)
  {
    function ReceiptKey(party: Party): Option<nat> {
      if party.key in keys && keys[party.key].principal == party.principal && keys[party.key].forReceipts
      then Some(keys[party.key].publicKey) else None
    }

    predicate StoreBound(store: Id, principal: Id, role: Role) {
      store in stores && stores[store].principal == principal && role in stores[store].roles
    }
  }

  /** Later than the reference by more than the skew, written as the source writes it. */
  predicate ExceedsWithSkew(value: Time, reference: Time, skew: nat) {
    value > reference && value - reference > skew
  }

  /** One authenticated, conflict-free interaction, before its parent relation is decided. */
  datatype Candidate = Candidate(handoff: Handoff, decision: Decision, decidedAt: Time)

  /** The representation-blind view that policy code receives. */
  datatype PolicyView = PolicyView(
    handoff: Handoff, senderAuthenticated: bool, receiverAuthenticated: bool, bilateral: bool,
    decision: Decision, decidedAt: Time, parentValid: bool, conflictFree: bool)
  {
    function NeutralId(): Digest {
      HandoffDigest(handoff)
    }
  }

  datatype ValidatedHandoff = ValidatedHandoff(representation: Representation, candidate: Candidate)
  {
    function View(): PolicyView {
      PolicyView(candidate.handoff, true, true, candidate.decision == Accept,
                 candidate.decision, candidate.decidedAt, true, true)
    }
  }

  datatype IssueCode =
    | MalformedEvidence | UnknownSigner | SignatureInvalid | StoreBindingInvalid
    | ProfileViolation | TemporalInconsistency | FutureDecision | Equivocation | EndpointMissing
    | EndpointMismatch | CrossReferenceInvalid | ParentInvalid | ParentMissing | ParentCycle
    | RootInvalid | ParentTimeInvalid | PartyContinuityInvalid | PayloadKindMismatch
    | EvidenceMissing

  datatype Issue = Issue(code: IssueCode, interaction: Option<Id>)
}
