/** What stands behind a view: both parties' signatures, in view when the gate decided. */
module Authenticity {
  import opened Common
  import opened Model
  import opened Validation
  import opened Gate
  import opened GateLaws
  import opened AllowConsequences
  import opened GateRuns
  import opened Prepare
  import opened Admission
  import opened Emission

  // ---------- evidence for one handoff ----------

  /** The message carries the sender's record of this handoff, signed by the sender and from its own store. */
  predicate SenderSigns(env: Environment, m: Message, h: Handoff, s: EndpointRecord) {
    && m.payload == EndpointPayload(s) && s.body == EndpointBody(Sender, h.sender, h, None, None, None, None)
    && KnownSigner(env, h.sender) && s.signature == EndpointSignature(env.keys[h.sender.key].publicKey, s.body)
    && MayHold(env, m.origin, h.sender.principal, Sender)
  }

  /** And this one the receiver's record of it with its answer; in CR, bound to the sender's record. */
  predicate ReceiverSigns(rep: Representation, env: Environment, m: Message, h: Handoff, decision: Decision, decidedAt: Time,
                          s: EndpointRecord, r: EndpointRecord) {
    && m.payload == EndpointPayload(r)
    && r.body == EndpointBody(Receiver, h.receiver, h, if rep == CR then Some(RecordDigest(s)) else None,
                              Some(decision), r.body.reason, Some(decidedAt))
    && KnownSigner(env, h.receiver) && r.signature == EndpointSignature(env.keys[h.receiver.key].publicKey, r.body)
    && MayHold(env, m.origin, h.receiver.principal, Receiver)
  }

  /**
   The message carries one receipt: the sender's signature is over the proposal of exactly this
   handoff, the receiver's over that signature and this answer, and one of their stores sent it.
   */
  predicate BothSign(env: Environment, m: Message, h: Handoff, decision: Decision, decidedAt: Time, r: Receipt) {
    var p := r.proposal;
    && m.payload == ReceiptPayload(r)
    && h == Handoff(p.interaction, p.sender, p.receiver, p.event, p.sequence, h.previous, p.scope, p.lineage,
                    p.version, p.statusId, p.createdAt, p.requestHash)
    && r.decision == decision && r.decidedAt == decidedAt && r.boundSenderSignature == r.senderSignature
    && KnownSigner(env, h.sender) && r.senderSignature == ProposalSignature(env.keys[h.sender.key].publicKey, p)
    && KnownSigner(env, h.receiver)
    && r.receiverSignature ==
       CompletionSignature(env.keys[h.receiver.key].publicKey, p, r.senderSignature, decision, r.reason, decidedAt)
    && HeldByOne(env, m.origin, p)
  }

  /** The receipt names no parent if the handoff does not, and otherwise a receipt in view for that parent. */
  ghost predicate NamesParent(env: Environment, ms: set<Message>, r: Receipt, previous: Option<Id>) {
    match previous
    case None => r.proposal.previousReceipt == None
    case Some(i) =>
      exists parent, m | m in ms ::
        ReceiptAccepted(env, m, parent) && parent.proposal.interaction == i && r.proposal.previousReceipt == Some(ReceiptDigest(parent))
  }

  /** Both parties signed this handoff, and the receiver this decision on it, in messages in view. */
  ghost predicate Signed(rep: Representation, env: Environment, ms: set<Message>, h: Handoff, decision: Decision, decidedAt: Time) {
    if rep == PR then
      exists m, r | m in ms :: BothSign(env, m, h, decision, decidedAt, r) && NamesParent(env, ms, r, h.previous)
    else
      exists m, s, m', r | m in ms && m' in ms ::
        SenderSigns(env, m, h, s) && ReceiverSigns(rep, env, m', h, decision, decidedAt, s, r)
  }

  // ---------- every view is signed for ----------

  lemma PairIsSigned(rep: Representation, env: Environment, ms: set<Message>, c: Candidate)
    requires rep != PR && Supported(rep, env, ms, c)
    ensures Signed(rep, env, ms, c.handoff, c.decision, c.decidedAt) && c.handoff.Valid()
  {
    var read := Read(rep, ms);
    var s, r :| Paired(rep, env, read, s, r) && s.body.handoff == c.handoff
                && r.body.decision == Some(c.decision) && r.body.decidedAt == Some(c.decidedAt);
    var m :| m in read && RecordAccepted(rep, env, m, s);
    var m' :| m' in read && RecordAccepted(rep, env, m', r);
    assert SenderSigns(env, m, c.handoff, s);
    assert ReceiverSigns(rep, env, m', c.handoff, c.decision, c.decidedAt, s, r);
  }

  lemma ReceiptIsSigned(env: Environment, ms: set<Message>, c: Candidate)
    requires Supported(PR, env, ms, c)
    ensures Signed(PR, env, ms, c.handoff, c.decision, c.decidedAt)
  {
    var read := Read(PR, ms);
    var r :| Uncontested(env, read, r) && StandsFor(env, read, r, c);
    var m :| m in read && ReceiptAccepted(env, m, r);
    assert BothSign(env, m, c.handoff, c.decision, c.decidedAt, r);
    if r.proposal.previousReceipt.Some? {
      var parent := r.proposal.previousReceipt.value.receipt;
      var m' :| m' in read && ReceiptAccepted(env, m', parent);
      assert m' in ms;
    }
    assert NamesParent(env, ms, r, c.handoff.previous);
  }

  /** No view without both signatures over exactly its handoff and decision; and every view is a valid handoff. */
  lemma ViewsAreSigned(rep: Representation, env: Environment, ms: set<Message>, v: PolicyView)
    requires v in ViewsOf(rep, env, ms)
    ensures Signed(rep, env, ms, v.handoff, v.decision, v.decidedAt)
    ensures !Raises(rep, env, ms) ==> v.handoff.Valid()
  {
    ViewIffSupportedLine(rep, env, ms, v);
    var line :| IsLine(env.skew, line) && AllSupported(rep, env, ms, line) && v == Shown(line[|line| - 1]);
    var c := line[|line| - 1];
    if rep == PR {
      ReceiptIsSigned(env, ms, c);
      CandidateIff(rep, env, ms, c.handoff.interaction, c);
    } else {
      PairIsSigned(rep, env, ms, c);
    }
  }

  // ---------- so at the gate ----------

  /** How an input came about. */
  datatype Preparation = Preparation(view: LocalView, rep: Representation, reg: Registries, snap: Snapshot)
  {
    ghost predicate Gives(input: Input) {
      IsPrepared(view, rep, reg, snap, input)
    }

    /** What is registered, as of the decision time. */
    function Known(): Environment {
      Environment(reg.keys, reg.stores, view.decisionTime, reg.skew)
    }

    /** Both parties signed the handoff and the decision, in messages the verifier had. */
    ghost predicate Shows(v: PolicyView) {
      Signed(rep, Known(), Elems(view.messages), v.handoff, v.decision, v.decidedAt)
    }

    /** A message the verifier had carries the status, signed by its issuer and from a store the issuer may use. */
    ghost predicate ShowsStatus(st: Status) {
      exists m | m in view.messages :: m.kind == AuthorityStatus && StatusSigned(reg, m, st)
    }
  }

  lemma PreparedViewsAreSigned(p: Preparation, input: Input, v: PolicyView)
    requires p.Gives(input) && v in input.views
    ensures p.Shows(v) && v.handoff.Valid()
  {
    assert v in Elems(input.views);
    ViewsAreSigned(p.rep, p.reg.EnvironmentAt(p.view.decisionTime), Elems(p.view.messages), v);
  }

  /** The gate is shown exactly the ends of the supported lines in the verifier's view at the decision time. */
  lemma PreparedViewsAreSupported(p: Preparation, input: Input, v: PolicyView)
    requires p.Gives(input)
    ensures v in input.views <==>
            && Unmixed(p.rep, Elems(p.view.messages))
            && exists line :: IsLine(p.reg.skew, line) && AllSupported(p.rep, p.Known(), Elems(p.view.messages), line)
                              && v == Shown(line[|line| - 1])
  {
    ViewIffSupportedLine(p.rep, p.Known(), Elems(p.view.messages), v);
    assert v in input.views <==> v in Elems(input.views);
  }

  lemma PreparedStatusesAreSigned(p: Preparation, input: Input, st: Status)
    requires p.Gives(input) && st in Elems(input.statuses)
    ensures p.ShowsStatus(st)
  {
    var m :| m in Elems(p.view.messages) && m.kind == AuthorityStatus && p.reg.Authentic(m) && m.payload.signed.status == st;
    AuthenticMeaning(p.reg, m, st);
  }

  /** On a prepared input no allowed chain is longer than 33 handoffs. */
  lemma AllowedChainsAreShort(p: Preparation, cfg: Config, input: Input, a: Action, tool: Id, ch: seq<PolicyView>, st: Status)
    requires p.Gives(input) && Authorised(cfg, input, a, tool, ch, st)
    ensures |ch| <= ch[0].handoff.scope.redelegations + 1 && |ch| <= MAX_REDELEGATIONS + 1
  {
    PreparedViewsAreSigned(p, input, ch[0]);
    DelegationIsBounded(cfg, input, a, tool, ch, st);
  }

  /** Everything in an allowed chain is signed and accepted, and so is the status that governs it. */
  lemma AllowedChainsAreSigned(p: Preparation, cfg: Config, input: Input, a: Action, tool: Id, ch: seq<PolicyView>, st: Status)
    requires p.Gives(input) && Authorised(cfg, input, a, tool, ch, st)
    ensures forall k | 0 <= k < |ch| :: p.Shows(ch[k]) && ch[k].decision == Accept
    ensures p.ShowsStatus(st)
  {
    forall k | 0 <= k < |ch|
      ensures p.Shows(ch[k])
    {
      PreparedViewsAreSigned(p, input, ch[k]);
    }
    PreparedStatusesAreSigned(p, input, st);
  }

  /**
   Nothing is used that was not signed: whenever a consume is allowed in a run on prepared inputs,
   an earlier authorization allowed this action for this tool on evidence it then had, in which
   both parties signed every handoff of the chain, every receiver accepted, and the issuer signed
   the status; and all of it is still in force.
   */
  lemma UsesAreSigned(cfg: Config, events: seq<Event>, preparations: seq<Preparation>, n: nat)
    returns (m: nat, ch: seq<PolicyView>, st: Status)
    requires |preparations| == |events|
    requires forall k | 0 <= k < |events| && events[k].AuthorizeEvent? :: preparations[k].Gives(events[k].input)
    requires n < |events| && events[n].ConsumeEvent? && Allowed(cfg, events, n)
    ensures m < n && events[m].AuthorizeEvent? && Allowed(cfg, events, m)
    ensures events[m].action == events[n].action && events[m].tool == events[n].tool && events[m].permitId == events[n].permitId
    ensures Authorised(cfg, events[m].input, events[n].action, events[n].tool, ch, st)
    ensures InForce(cfg, events[m].input, ch, st, events[n].now)
    ensures forall k | 0 <= k < |ch| :: preparations[m].Shows(ch[k]) && ch[k].decision == Accept
    ensures preparations[m].ShowsStatus(st) && |ch| <= MAX_REDELEGATIONS + 1
  {
    m, ch, st := TimeOfUse(cfg, events, n);
    AllowedChainsAreSigned(preparations[m], cfg, events[m].input, events[m].action, events[m].tool, ch, st);
    AllowedChainsAreShort(preparations[m], cfg, events[m].input, events[m].action, events[m].tool, ch, st);
  }
}
