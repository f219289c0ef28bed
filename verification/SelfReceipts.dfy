/** The one way in which evidence makes validation raise instead of reporting: a receipt to oneself. */
module SelfReceipts {
  import opened Common
  import opened Model
  import opened Validation
  import opened Admission
  import opened Emission
  import Receipts

  /** An uncontested receipt whose two endpoints are one principal and whose parent, if it names one, is uncontested too. */
  ghost predicate Forces(env: Environment, ms: set<Message>, r: Receipt) {
    && Uncontested(env, ms, r) && r.proposal.sender.principal == r.proposal.receiver.principal
    && match r.proposal.previousReceipt
       case None => true
       case Some(parent) => parent.ReceiptDigest? && Uncontested(env, ms, parent.receipt)
  }

  lemma ForcesMeaning(env: Environment, ms: set<Message>, r: Receipt)
    ensures Receipts.Raising(env, ms, r) <==> Forces(env, ms, r)
  {
    UncontestedMeaning(env, ms, r);
    if r.proposal.previousReceipt.Some? && r.proposal.previousReceipt.value.ReceiptDigest? {
      UncontestedMeaning(env, ms, r.proposal.previousReceipt.value.receipt);
    }
  }

  /** Validation raises if and only if a receipt in view forces it to. */
  lemma RaisesIffSelfReceipt(rep: Representation, env: Environment, ms: set<Message>)
    ensures Raises(rep, env, ms) <==> rep == PR && exists r :: Forces(env, Read(PR, ms), r)
  {
    assert InProfile(PR, ms) == Read(PR, ms);
    Receipts.RaisesExactly(env, Read(PR, ms));
    forall r
      ensures Receipts.Raising(env, Read(PR, ms), r) <==> Forces(env, Read(PR, ms), r)
    {
      ForcesMeaning(env, Read(PR, ms), r);
    }
  }

  /** A view without any receipt to oneself is always reported on. */
  lemma NoSelfReceiptNoRaise(rep: Representation, env: Environment, ms: set<Message>)
    requires forall m | m in ms && m.payload.ReceiptPayload? ::
               m.payload.receipt.proposal.sender.principal != m.payload.receipt.proposal.receiver.principal
    ensures !Raises(rep, env, ms)
  {
    RaisesIffSelfReceipt(rep, env, ms);
    forall r | ReceiptInView(env, Read(PR, ms), r)
      ensures r.proposal.sender.principal != r.proposal.receiver.principal
    {
      var m :| m in Read(PR, ms) && ReceiptAccepted(env, m, r);
      assert m.payload.receipt == r;
    }
  }

  // ---------- an input that raises ----------

  /** Principal 7 holds two receipt keys and one store, which is bound to it as a sender only. */
  function OnePrincipal(): Environment {
    Environment(map[1 := TrustedKey(7, 100, true, false), 2 := TrustedKey(7, 200, true, false)],
                map[5 := StoreBinding(7, {Sender})], 20, 0)
  }

  function ProposalToOneself(): Proposal {
    Proposal(3, Delegation, 10, 3, Party(7, 70, 1), Party(7, 71, 2), 0, None,
             Scope({1}, {1}, 1, 100, 0, 30, 1), Lineage(7, 7, 2), 1, OpaqueDigest(0), OpaqueDigest(1))
  }

  function ReceiptToOneself(): Receipt {
    var p := ProposalToOneself();
    var first := ProposalSignature(100, p);
    Receipt(p, first, first, Accept, None, 11, CompletionSignature(200, p, first, Accept, None, 11))
  }

  function MessageToOneself(): Message {
    Message(1, 5, 6, 12, ReceiptKind, ReceiptPayload(ReceiptToOneself()))
  }

  lemma ReceiptToOneselfIsAdmitted()
    ensures Receipts.Judge(OnePrincipal(), MessageToOneself()) == Receipts.Admitted(ReceiptToOneself())
  {
    var env, p := OnePrincipal(), ProposalToOneself();
    assert env.ReceiptKey(p.sender) == Some(100) && env.ReceiptKey(p.receiver) == Some(200);
    assert env.StoreBound(5, 7, Sender) && !env.StoreBound(5, 7, Receiver);
    assert ReceiptToOneself().WellFormed();
  }

  /** A single properly signed, store-bound and timely receipt can make validation raise. */
  lemma ReceiptToOneselfRaises()
    ensures Raises(PR, OnePrincipal(), {MessageToOneself()})
  {
    var env, m, r := OnePrincipal(), MessageToOneself(), ReceiptToOneself();
    ReceiptToOneselfIsAdmitted();
    assert InProfile(PR, {m}) == {m};
    assert Receipts.InView(env, {m}, r);
    assert Receipts.Raising(env, InProfile(PR, {m}), r);
    assert Read(PR, {m}) == {m};
    ForcesMeaning(env, {m}, r);
    RaisesIffSelfReceipt(PR, env, {m});
  }
}
