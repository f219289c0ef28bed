/** No two candidates collide, and authenticated evidence against an interaction always counts. */
module Uniqueness {
  import opened Common
  import opened Model
  import opened Validation
  import opened Sequence
  import Endpoint
  import Receipts

  lemma RecordSlotsDiffer(rep: Representation, rs: set<EndpointRecord>, tainted: set<Id>, i: Id, j: Id)
    requires Endpoint.AllDecided(rs)
    requires i in Endpoint.CandidatesFrom(rep, rs, tainted) && j in Endpoint.CandidatesFrom(rep, rs, tainted) && i != j
    ensures Endpoint.CandidatesFrom(rep, rs, tainted)[i].handoff.SenderSlot()
            != Endpoint.CandidatesFrom(rep, rs, tainted)[j].handoff.SenderSlot()
  {
    var s, s' := Endpoint.The(Endpoint.HeldBy(rs, Sender, i)), Endpoint.The(Endpoint.HeldBy(rs, Sender, j));
    assert s in Endpoint.HeldBy(rs, Sender, i) && s' in Endpoint.HeldBy(rs, Sender, j);
    var claims := Endpoint.Claims(rs);
    var claim, claim' := (s.body.handoff.SenderSlot(), i), (s'.body.handoff.SenderSlot(), j);
    assert claim in claims && claim' in claims;
    SharedSlotConflicts(claims, claim, claim');
  }

  /** A receipt candidate's slot is claimed for it, and for nothing else. */
  lemma ReceiptClaim(rs: set<Receipt>, tainted: set<Id>, i: Id)
    requires i in Receipts.CandidatesFrom(rs, tainted)
    ensures (Receipts.CandidatesFrom(rs, tainted)[i].handoff.SenderSlot(), i) in Receipts.Claims(rs)
    ensures i !in Conflicts(Receipts.Claims(rs))
  {
    Receipts.SelectedKeyed(rs, tainted);
    var r := Receipts.SelectedReceipts(rs, tainted)[i];
    assert (r.proposal.SenderSlot(), r.proposal.interaction) in Receipts.Claims(rs);
  }

  lemma ReceiptSlotsDiffer(rs: set<Receipt>, tainted: set<Id>, i: Id, j: Id)
    requires i in Receipts.CandidatesFrom(rs, tainted) && j in Receipts.CandidatesFrom(rs, tainted) && i != j
    ensures Receipts.CandidatesFrom(rs, tainted)[i].handoff.SenderSlot()
            != Receipts.CandidatesFrom(rs, tainted)[j].handoff.SenderSlot()
  {
    ReceiptClaim(rs, tainted, i);
    ReceiptClaim(rs, tainted, j);
    SharedSlotConflicts(Receipts.Claims(rs), (Receipts.CandidatesFrom(rs, tainted)[i].handoff.SenderSlot(), i),
                        (Receipts.CandidatesFrom(rs, tainted)[j].handoff.SenderSlot(), j));
  }

  /** In every representation: one view per interaction, and one view per sender sequence number. */
  lemma ViewsNeverCollide(rep: Representation, env: Environment, ms: set<Message>, v: PolicyView, v': PolicyView)
    requires v in ViewsOf(rep, env, ms) && v' in ViewsOf(rep, env, ms) && v != v'
    ensures v.handoff.interaction != v'.handoff.interaction
    ensures v.handoff.SenderSlot() != v'.handoff.SenderSlot()
  {
    CandidatesKeyed(rep, env, ms);
    var i, j := v.handoff.interaction, v'.handoff.interaction;
    var tainted := TaintedOf(rep, env, ms);
    if i != j {
      if rep == PR {
        ReceiptSlotsDiffer(Receipts.Records(env, InProfile(rep, ms)), tainted, i, j);
      } else {
        Endpoint.RecordsDecided(rep, env, InProfile(rep, ms));
        RecordSlotsDiffer(rep, Endpoint.Records(rep, env, InProfile(rep, ms)), tainted, i, j);
      }
    }
  }

  /** One authenticated, store-bound, out-of-profile message silences its interaction, whatever else arrives. */
  ghost predicate OutOfProfile(rep: Representation, env: Environment, m: Message, i: Id) {
    && m.kind == ExpectedKind(rep)
    && if rep == PR then Receipts.Judge(env, m) == Receipts.OutOfProfile(i)
       else Endpoint.Judge(rep, env, m) == Endpoint.OutOfProfile(i)
  }

  lemma OutOfProfileSilences(rep: Representation, env: Environment, ms: set<Message>, m: Message, i: Id, v: PolicyView)
    requires m in ms && OutOfProfile(rep, env, m, i) && v in ViewsOf(rep, env, ms)
    ensures v.handoff.interaction != i
    ensures Issue(ProfileViolation, Some(i)) in IssuesOf(rep, env, ms)
  {
    CandidatesKeyed(rep, env, ms);
    assert m in InProfile(rep, ms);
    assert i in TaintedOf(rep, env, ms);
  }
}
