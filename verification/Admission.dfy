/**
 What it takes for one message to count as evidence, said in its fields and in the registries:
 the forms, keys, signatures, stores and times behind the verdict on each kind of message.
 */
module Admission {
  import opened Common
  import opened Model
  import Endpoint
  import Receipts

  const MAX_NUMBER: int := 9_007_199_254_740_991

  /** The key the party names is registered to its principal, for signing receipts. */
  predicate KnownSigner(env: Environment, party: Party) {
    party.key in env.keys && env.keys[party.key].principal == party.principal && env.keys[party.key].forReceipts
  }

  predicate MayHold(env: Environment, store: Id, principal: Id, role: Role) {
    store in env.stores && env.stores[store].principal == principal && role in env.stores[store].roles
  }

  predicate ScopeParses(s: Scope) {
    && s.operations != {} && s.resources != {} && s.maxAmount <= MAX_NUMBER
    && s.notBefore < s.notAfter && s.redelegations <= 32
  }

  // ---------- endpoint records ----------

  predicate RecordParses(r: EndpointRecord) {
    var body, h := r.body, r.body.handoff;
    && h.sender.principal != h.receiver.principal
    && h.sequence <= MAX_NUMBER && 1 <= h.version <= MAX_NUMBER && ScopeParses(h.scope)
    && match body.role
       case Sender =>
         body.holder == h.sender && body.senderRecord == None && body.decision == None && body.reason == None && body.decidedAt == None
       case Receiver =>
         && body.holder == h.receiver && body.decision.Some? && body.decidedAt.Some?
         && h.createdAt <= body.decidedAt.value && (body.reason == None <==> body.decision == Some(Accept))
  }

  predicate RecordSigned(env: Environment, r: EndpointRecord) {
    KnownSigner(env, r.body.holder) && r.signature == EndpointSignature(env.keys[r.body.holder.key].publicKey, r.body)
  }

  /** Only in CR, and only from the receiver, does a record name the sender's record. */
  predicate RecordInProfile(rep: Representation, r: EndpointRecord) {
    r.body.senderRecord.Some? <==> rep == CR && r.body.role == Receiver
  }

  predicate RecordSentInTime(env: Environment, m: Message, r: EndpointRecord) {
    && r.body.handoff.createdAt <= m.sentAt + env.skew
    && (r.body.role == Receiver && r.body.decidedAt.Some? ==> r.body.decidedAt.value <= m.sentAt + env.skew)
  }

  predicate RecordDecidedInTime(env: Environment, r: EndpointRecord) {
    r.body.role == Receiver && r.body.decidedAt.Some? ==> r.body.decidedAt.value <= env.cutoff + env.skew
  }

  /** The message carries this record, in form, signed by its holder, from the holder's store, in profile and in time. */
  predicate RecordAccepted(rep: Representation, env: Environment, m: Message, r: EndpointRecord) {
    && m.payload == EndpointPayload(r) && RecordParses(r) && RecordSigned(env, r)
    && MayHold(env, m.origin, r.body.holder.principal, r.body.role)
    && RecordInProfile(rep, r) && RecordSentInTime(env, m, r) && RecordDecidedInTime(env, r)
  }

  lemma FormsOfRecords(r: EndpointRecord)
    ensures r.WellFormed() <==> RecordParses(r)
  {
  }

  /** Every message meets one verdict: the first test it fails, or admission. */
  lemma RecordJudged(rep: Representation, env: Environment, m: Message)
    ensures var verdict := Endpoint.Judge(rep, env, m);
      if !m.payload.EndpointPayload? || !RecordParses(m.payload.record)
      then verdict == Endpoint.Refused(Issue(MalformedEvidence, None))
      else
        var r := m.payload.record;
        var i := r.body.handoff.interaction;
        if !KnownSigner(env, r.body.holder) then verdict == Endpoint.Refused(Issue(UnknownSigner, Some(i)))
        else if !RecordSigned(env, r) then verdict == Endpoint.Refused(Issue(SignatureInvalid, Some(i)))
        else if !MayHold(env, m.origin, r.body.holder.principal, r.body.role)
        then verdict == Endpoint.Refused(Issue(StoreBindingInvalid, Some(i)))
        else if !RecordInProfile(rep, r) then verdict == Endpoint.OutOfProfile(i)
        else if !RecordSentInTime(env, m, r) then verdict == Endpoint.Refused(Issue(TemporalInconsistency, Some(i)))
        else if !RecordDecidedInTime(env, r) then verdict == Endpoint.Refused(Issue(FutureDecision, Some(i)))
        else verdict == Endpoint.Admitted(r)
  {
    if m.payload.EndpointPayload? {
      FormsOfRecords(m.payload.record);
    }
  }

  lemma RecordAdmittedIff(rep: Representation, env: Environment, m: Message, r: EndpointRecord)
    ensures Endpoint.Judge(rep, env, m) == Endpoint.Admitted(r) <==> RecordAccepted(rep, env, m, r)
  {
    RecordJudged(rep, env, m);
  }

  // ---------- receipts ----------

  predicate ReceiptParses(r: Receipt) {
    var p := r.proposal;
    && p.sequence <= MAX_NUMBER && 1 <= p.version <= MAX_NUMBER && ScopeParses(p.scope)
    && r.boundSenderSignature == r.senderSignature
    && p.createdAt <= r.decidedAt && (r.reason == None <==> r.decision == Accept)
  }

  /** Both parties' keys are registered, the sender signed the proposal, and the receiver its answer to that signature. */
  predicate ReceiptSigned(env: Environment, r: Receipt) {
    var p := r.proposal;
    && KnownSigner(env, p.sender) && KnownSigner(env, p.receiver)
    && r.senderSignature == ProposalSignature(env.keys[p.sender.key].publicKey, p)
    && r.receiverSignature ==
       CompletionSignature(env.keys[p.receiver.key].publicKey, p, r.senderSignature, r.decision, r.reason, r.decidedAt)
  }

  /** The store is that of exactly one endpoint in its role. */
  predicate HeldByOne(env: Environment, store: Id, p: Proposal) {
    || (MayHold(env, store, p.sender.principal, Sender) && !MayHold(env, store, p.receiver.principal, Receiver))
    || (MayHold(env, store, p.receiver.principal, Receiver) && !MayHold(env, store, p.sender.principal, Sender))
  }

  predicate ReceiptSentInTime(env: Environment, m: Message, r: Receipt) {
    r.proposal.createdAt <= m.sentAt + env.skew && r.decidedAt <= m.sentAt + env.skew
  }

  predicate ReceiptAccepted(env: Environment, m: Message, r: Receipt) {
    && m.payload == ReceiptPayload(r) && ReceiptParses(r) && ReceiptSigned(env, r)
    && HeldByOne(env, m.origin, r.proposal) && r.proposal.nonce == r.proposal.interaction
    && ReceiptSentInTime(env, m, r) && r.decidedAt <= env.cutoff + env.skew
  }

  lemma FormsOfReceipts(r: Receipt)
    ensures r.WellFormed() <==> ReceiptParses(r)
  {
  }

  lemma ReceiptJudged(env: Environment, m: Message)
    ensures var verdict := Receipts.Judge(env, m);
      if !m.payload.ReceiptPayload? || !ReceiptParses(m.payload.receipt)
      then verdict == Receipts.Refused(Issue(MalformedEvidence, None))
      else
        var r := m.payload.receipt;
        var i := r.proposal.interaction;
        if !KnownSigner(env, r.proposal.sender) || !KnownSigner(env, r.proposal.receiver)
        then verdict == Receipts.Refused(Issue(UnknownSigner, Some(i)))
        else if !ReceiptSigned(env, r) then verdict == Receipts.Refused(Issue(SignatureInvalid, Some(i)))
        else if !HeldByOne(env, m.origin, r.proposal) then verdict == Receipts.Refused(Issue(StoreBindingInvalid, Some(i)))
        else if r.proposal.nonce != i then verdict == Receipts.OutOfProfile(i)
        else if !ReceiptSentInTime(env, m, r) then verdict == Receipts.Refused(Issue(TemporalInconsistency, Some(i)))
        else if r.decidedAt > env.cutoff + env.skew then verdict == Receipts.Refused(Issue(FutureDecision, Some(i)))
        else verdict == Receipts.Admitted(r)
  {
    if m.payload.ReceiptPayload? {
      FormsOfReceipts(m.payload.receipt);
    }
  }

  lemma ReceiptAdmittedIff(env: Environment, m: Message, r: Receipt)
    ensures Receipts.Judge(env, m) == Receipts.Admitted(r) <==> ReceiptAccepted(env, m, r)
  {
    ReceiptJudged(env, m);
  }
}
