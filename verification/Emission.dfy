/**
 What a validated view stands for, from the messages up: which records or receipts make a
 candidate, and which line of candidates a view comes down. Stated without the validator's own tests.
 */
module Emission {
  import opened Common
  import opened Model
  import opened Admission
  import opened Relation
  import opened Validation
  import opened Sequence
  import Endpoint
  import Receipts

  predicate SameSlot(h: Handoff, h': Handoff) {
    h.sender.principal == h'.sender.principal && h.sender.key == h'.sender.key && h.sequence == h'.sequence
  }

  // ---------- SL and CR: a record of either endpoint ----------

  ghost predicate RecordInView(rep: Representation, env: Environment, ms: set<Message>, r: EndpointRecord) {
    exists m | m in ms :: RecordAccepted(rep, env, m, r)
  }

  /** An authenticated record of the wrong profile for the interaction. */
  ghost predicate RecordAgainst(rep: Representation, env: Environment, ms: set<Message>, i: Id) {
    exists m, r | m in ms ::
      && m.payload == EndpointPayload(r) && RecordParses(r) && RecordSigned(env, r)
      && MayHold(env, m.origin, r.body.holder.principal, r.body.role)
      && !RecordInProfile(rep, r) && r.body.handoff.interaction == i
  }

  /** The only record of either endpoint for the interaction, over one handoff, whose sequence number no other interaction uses. */
  ghost predicate Paired(rep: Representation, env: Environment, ms: set<Message>, s: EndpointRecord, r: EndpointRecord) {
    var h := s.body.handoff;
    && RecordInView(rep, env, ms, s) && s.body.role == Sender
    && RecordInView(rep, env, ms, r) && r.body.role == Receiver && r.body.handoff == h
    && (rep == CR ==> r.body.senderRecord == Some(RecordDigest(s)))
    && !RecordAgainst(rep, env, ms, h.interaction)
    && (forall x | RecordInView(rep, env, ms, x) && x.body.handoff.interaction == h.interaction :: x == s || x == r)
    && (forall x | RecordInView(rep, env, ms, x) && x.body.role == Sender && SameSlot(x.body.handoff, h) ::
          x.body.handoff.interaction == h.interaction)
  }

  lemma RecordsAreInView(rep: Representation, env: Environment, ms: set<Message>, r: EndpointRecord)
    ensures r in Endpoint.Records(rep, env, ms) <==> RecordInView(rep, env, ms, r)
  {
    if r in Endpoint.Records(rep, env, ms) {
      var m :| m in ms && Endpoint.Judge(rep, env, m) == Endpoint.Admitted(r);
      RecordAdmittedIff(rep, env, m, r);
    }
    if m :| m in ms && RecordAccepted(rep, env, m, r) {
      RecordAdmittedIff(rep, env, m, r);
      assert Endpoint.Judge(rep, env, m).record in Endpoint.Records(rep, env, ms);
    }
  }

  lemma RecordTaints(rep: Representation, env: Environment, ms: set<Message>, i: Id)
    ensures i in Endpoint.TaintedIds(rep, env, ms) <==> RecordAgainst(rep, env, ms, i)
  {
    if i in Endpoint.TaintedIds(rep, env, ms) {
      var m :| m in ms && Endpoint.Judge(rep, env, m) == Endpoint.OutOfProfile(i);
      RecordJudged(rep, env, m);
      assert m.payload == EndpointPayload(m.payload.record);
    }
    if RecordAgainst(rep, env, ms, i) {
      var m, r :| m in ms
        && m.payload == EndpointPayload(r) && RecordParses(r) && RecordSigned(env, r)
        && MayHold(env, m.origin, r.body.holder.principal, r.body.role)
        && !RecordInProfile(rep, r) && r.body.handoff.interaction == i;
      RecordJudged(rep, env, m);
      assert Endpoint.Judge(rep, env, m).interaction in Endpoint.TaintedIds(rep, env, ms);
    }
  }

  lemma PairedIsResolved(rep: Representation, env: Environment, ms: set<Message>, s: EndpointRecord, r: EndpointRecord)
    requires Paired(rep, env, ms, s, r)
    ensures var rs, i := Endpoint.Records(rep, env, ms), s.body.handoff.interaction;
      && Endpoint.AllDecided(rs) && r.body.decision.Some? && r.body.decidedAt.Some?
      && i in Endpoint.Interactions(rs)
      && Endpoint.Resolve(rep, rs, i) == Ok(Candidate(s.body.handoff, r.body.decision.value, r.body.decidedAt.value))
  {
    var rs, i := Endpoint.Records(rep, env, ms), s.body.handoff.interaction;
    Endpoint.RecordsDecided(rep, env, ms);
    RecordsAreInView(rep, env, ms, s);
    RecordsAreInView(rep, env, ms, r);
    forall x | x in rs
      ensures x.body.handoff.interaction == i ==> x == s || x == r
      ensures x.body.role == Sender && SameSlot(x.body.handoff, s.body.handoff) ==> x.body.handoff.interaction == i
    {
      RecordsAreInView(rep, env, ms, x);
    }
    assert Endpoint.HeldBy(rs, Sender, i) == {s};
    assert Endpoint.HeldBy(rs, Receiver, i) == {r};
    SlotIsUncontested(rs, s);
  }

  lemma SlotIsUncontested(rs: set<EndpointRecord>, s: EndpointRecord)
    requires s in rs && s.body.role == Sender && Endpoint.HeldBy(rs, Sender, s.body.handoff.interaction) == {s}
    requires forall x | x in rs && x.body.role == Sender && SameSlot(x.body.handoff, s.body.handoff) ::
               x.body.handoff.interaction == s.body.handoff.interaction
    ensures s.body.handoff.interaction !in Conflicts(Endpoint.Claims(rs))
  {
    var claims, i := Endpoint.Claims(rs), s.body.handoff.interaction;
    forall k, other: Id | (k, i) in claims && (k, other) in claims
      ensures other == i
    {
      var x :| x in rs && x.body.role == Sender && (x.body.handoff.SenderSlot(), Endpoint.InteractionOf(x)) == (k, i);
      var y :| y in rs && y.body.role == Sender && (y.body.handoff.SenderSlot(), Endpoint.InteractionOf(y)) == (k, other);
      assert x in Endpoint.HeldBy(rs, Sender, i);
      assert SameSlot(y.body.handoff, s.body.handoff);
    }
    assert !Contested(claims, i);
  }

  lemma ResolvedIsPaired(rep: Representation, env: Environment, ms: set<Message>, i: Id)
    returns (s: EndpointRecord, r: EndpointRecord)
    requires Endpoint.AllDecided(Endpoint.Records(rep, env, ms)) && !RecordAgainst(rep, env, ms, i)
    requires Endpoint.Resolve(rep, Endpoint.Records(rep, env, ms), i).Ok?
    ensures Paired(rep, env, ms, s, r) && s.body.handoff.interaction == i
  {
    var rs := Endpoint.Records(rep, env, ms);
    s, r := Endpoint.The(Endpoint.HeldBy(rs, Sender, i)), Endpoint.The(Endpoint.HeldBy(rs, Receiver, i));
    assert s in Endpoint.HeldBy(rs, Sender, i) && r in Endpoint.HeldBy(rs, Receiver, i);
    RecordsAreInView(rep, env, ms, s);
    RecordsAreInView(rep, env, ms, r);
    forall x | RecordInView(rep, env, ms, x)
      ensures x.body.handoff.interaction == i ==> x == s || x == r
      ensures x.body.role == Sender && SameSlot(x.body.handoff, s.body.handoff) ==> x.body.handoff.interaction == i
    {
      RecordsAreInView(rep, env, ms, x);
      RecordAlone(rep, rs, i, s, r, x);
    }
  }

  lemma RecordAlone(rep: Representation, rs: set<EndpointRecord>, i: Id, s: EndpointRecord, r: EndpointRecord, x: EndpointRecord)
    requires Endpoint.HeldBy(rs, Sender, i) == {s} && Endpoint.HeldBy(rs, Receiver, i) == {r}
    requires i !in Conflicts(Endpoint.Claims(rs)) && x in rs
    ensures x.body.handoff.interaction == i ==> x == s || x == r
    ensures x.body.role == Sender && SameSlot(x.body.handoff, s.body.handoff) ==> x.body.handoff.interaction == i
  {
    if x.body.handoff.interaction == i {
      assert x in Endpoint.HeldBy(rs, x.body.role, i);
    } else if x.body.role == Sender && SameSlot(x.body.handoff, s.body.handoff) {
      assert s in Endpoint.HeldBy(rs, Sender, i);
      SharedSlotConflicts(Endpoint.Claims(rs), (s.body.handoff.SenderSlot(), i), (x.body.handoff.SenderSlot(), x.body.handoff.interaction));
      assert false;
    }
  }

  /** A candidate of SL or CR is one pair of records, and nothing else in view speaks against it. */
  lemma RecordCandidateIff(rep: Representation, env: Environment, ms: set<Message>, i: Id, c: Candidate)
    ensures Endpoint.AllDecided(Endpoint.Records(rep, env, ms))
    ensures var candidates := Endpoint.CandidatesFrom(rep, Endpoint.Records(rep, env, ms), Endpoint.TaintedIds(rep, env, ms));
      (i in candidates && candidates[i] == c) <==>
      exists s, r :: Paired(rep, env, ms, s, r) && i == c.handoff.interaction && s.body.handoff == c.handoff
                     && r.body.decision == Some(c.decision) && r.body.decidedAt == Some(c.decidedAt)
  {
    Endpoint.RecordsDecided(rep, env, ms);
    RecordTaints(rep, env, ms, i);
    var candidates := Endpoint.CandidatesFrom(rep, Endpoint.Records(rep, env, ms), Endpoint.TaintedIds(rep, env, ms));
    if i in candidates && candidates[i] == c {
      var s, r := ResolvedIsPaired(rep, env, ms, i);
      PairedIsResolved(rep, env, ms, s, r);
    }
    if s, r :| Paired(rep, env, ms, s, r) && i == c.handoff.interaction && s.body.handoff == c.handoff
               && r.body.decision == Some(c.decision) && r.body.decidedAt == Some(c.decidedAt) {
      PairedIsResolved(rep, env, ms, s, r);
    }
  }

  // ---------- PR: one receipt ----------

  ghost predicate ReceiptInView(env: Environment, ms: set<Message>, r: Receipt) {
    exists m | m in ms :: ReceiptAccepted(env, m, r)
  }

  ghost predicate ReceiptAgainst(env: Environment, ms: set<Message>, i: Id) {
    exists m, r | m in ms ::
      && m.payload == ReceiptPayload(r) && ReceiptParses(r) && ReceiptSigned(env, r) && HeldByOne(env, m.origin, r.proposal)
      && r.proposal.interaction == i && r.proposal.nonce != i
  }

  /** The only receipt in view for its interaction, and the only one with its sender's sequence number. */
  ghost predicate Uncontested(env: Environment, ms: set<Message>, r: Receipt) {
    && ReceiptInView(env, ms, r) && !ReceiptAgainst(env, ms, r.proposal.interaction)
    && forall x | ReceiptInView(env, ms, x) ::
         || x == r
         || (x.proposal.interaction != r.proposal.interaction
             && !(x.proposal.sender.principal == r.proposal.sender.principal && x.proposal.sender.key == r.proposal.sender.key
                  && x.proposal.sequence == r.proposal.sequence))
  }

  /** The candidate repeats the receipt, with the receipt named as parent turned back into its interaction. */
  ghost predicate StandsFor(env: Environment, ms: set<Message>, r: Receipt, c: Candidate) {
    var p, h := r.proposal, c.handoff;
    && c.decision == r.decision && c.decidedAt == r.decidedAt
    && h == Handoff(p.interaction, p.sender, p.receiver, p.event, p.sequence, h.previous, p.scope, p.lineage,
                    p.version, p.statusId, p.createdAt, p.requestHash)
    && match p.previousReceipt
       case None => h.previous == None
       case Some(parent) =>
         parent.ReceiptDigest? && Uncontested(env, ms, parent.receipt) && h.previous == Some(parent.receipt.proposal.interaction)
  }

  lemma ReceiptsAreInView(env: Environment, ms: set<Message>, r: Receipt)
    ensures Receipts.InView(env, ms, r) <==> ReceiptInView(env, ms, r)
  {
    forall m | m in ms
      ensures Receipts.Judge(env, m) == Receipts.Admitted(r) <==> ReceiptAccepted(env, m, r)
    {
      ReceiptAdmittedIff(env, m, r);
    }
  }

  lemma ReceiptTaints(env: Environment, ms: set<Message>, i: Id)
    ensures (exists m | m in ms :: Receipts.Judge(env, m) == Receipts.OutOfProfile(i)) <==> ReceiptAgainst(env, ms, i)
  {
    if m :| m in ms && Receipts.Judge(env, m) == Receipts.OutOfProfile(i) {
      ReceiptJudged(env, m);
      assert m.payload == ReceiptPayload(m.payload.receipt);
    }
    if ReceiptAgainst(env, ms, i) {
      var m, r :| m in ms
        && m.payload == ReceiptPayload(r) && ReceiptParses(r) && ReceiptSigned(env, r) && HeldByOne(env, m.origin, r.proposal)
        && r.proposal.interaction == i && r.proposal.nonce != i;
      ReceiptJudged(env, m);
    }
  }

  lemma UncontestedMeaning(env: Environment, ms: set<Message>, r: Receipt)
    ensures Receipts.Unopposed(env, ms, r) <==> Uncontested(env, ms, r)
  {
    ReceiptsAreInView(env, ms, r);
    ReceiptTaints(env, ms, r.proposal.interaction);
    if Receipts.Unopposed(env, ms, r) {
      forall x | ReceiptInView(env, ms, x)
        ensures x.proposal.interaction == r.proposal.interaction ==> x == r
        ensures x.proposal.SenderSlot() == r.proposal.SenderSlot() ==> x == r
      {
        ReceiptsAreInView(env, ms, x);
        var m :| m in ms && Receipts.Judge(env, m) == Receipts.Admitted(x);
      }
    }
    if Uncontested(env, ms, r) {
      forall m | m in ms && Receipts.Judge(env, m).Admitted?
        ensures ReceiptInView(env, ms, Receipts.Judge(env, m).receipt)
      {
        ReceiptsAreInView(env, ms, Receipts.Judge(env, m).receipt);
      }
    }
  }

  lemma LinkMeaning(env: Environment, ms: set<Message>, r: Receipt, c: Candidate)
    ensures var rs := Receipts.Records(env, ms);
      Receipts.Link(Receipts.DigestsOf(rs), Receipts.SelectedReceipts(rs, Receipts.TaintedIds(env, ms)), r) == Ok(c)
      <==> StandsFor(env, ms, r, c)
  {
    if r.proposal.previousReceipt.Some? {
      var parent := r.proposal.previousReceipt.value;
      Receipts.ParentUnopposed(env, ms, parent);
      if parent.ReceiptDigest? {
        UncontestedMeaning(env, ms, parent.receipt);
      }
    }
  }

  /** A candidate of PR is one receipt that nothing in view speaks against. */
  lemma ReceiptCandidateIff(env: Environment, ms: set<Message>, i: Id, c: Candidate)
    ensures var candidates := Receipts.CandidatesFrom(Receipts.Records(env, ms), Receipts.TaintedIds(env, ms));
      (i in candidates && candidates[i] == c) <==>
      exists r :: Uncontested(env, ms, r) && i == c.handoff.interaction && StandsFor(env, ms, r, c)
  {
    var rs, tainted := Receipts.Records(env, ms), Receipts.TaintedIds(env, ms);
    var selected, candidates := Receipts.SelectedReceipts(rs, tainted), Receipts.CandidatesFrom(rs, tainted);
    Receipts.SelectedKeyed(rs, tainted);
    if i in candidates && candidates[i] == c {
      Receipts.SelectedIsUnopposed(env, ms, selected[i]);
      UncontestedMeaning(env, ms, selected[i]);
      LinkMeaning(env, ms, selected[i], c);
    }
    if r :| Uncontested(env, ms, r) && i == c.handoff.interaction && StandsFor(env, ms, r, c) {
      UncontestedMeaning(env, ms, r);
      Receipts.SelectedIsUnopposed(env, ms, r);
      LinkMeaning(env, ms, r, c);
    }
  }

  // ---------- a view ----------

  /** The only kind of handoff evidence that a representation reads. */
  predicate OfKind(rep: Representation, m: Message) {
    match rep
    case SL => m.kind == SignedEndpointRecord
    case CR => m.kind == CrossReferencedRecord
    case PR => m.kind == ReceiptKind
  }

  ghost function Read(rep: Representation, ms: set<Message>): set<Message> {
    set m | m in ms && OfKind(rep, m)
  }

  ghost predicate Supported(rep: Representation, env: Environment, ms: set<Message>, c: Candidate) {
    if rep == PR then exists r :: Uncontested(env, Read(rep, ms), r) && StandsFor(env, Read(rep, ms), r, c)
    else exists s, r :: Paired(rep, env, Read(rep, ms), s, r) && s.body.handoff == c.handoff
                        && r.body.decision == Some(c.decision) && r.body.decidedAt == Some(c.decidedAt)
  }

  /** Handoffs, each delegated by the one before, down from a parentless delegation. */
  ghost predicate IsLine(skew: nat, line: seq<Candidate>) {
    && line != [] && line[0].handoff.previous == None && line[0].handoff.event == Delegation
    && forall j, k | 0 <= j < |line| && k == j + 1 < |line| ::
         && line[k].handoff.previous == Some(line[j].handoff.interaction)
         && line[j].decision == Accept && line[j].handoff.event == Delegation
         && line[j].decidedAt <= line[k].handoff.createdAt + skew
         && line[j].handoff.receiver == line[k].handoff.sender
  }

  ghost predicate AllSupported(rep: Representation, env: Environment, ms: set<Message>, line: seq<Candidate>) {
    forall k | 0 <= k < |line| :: Supported(rep, env, ms, line[k])
  }

  /** Exactly the supported handoffs are candidates, each under its interaction. */
  lemma CandidateIff(rep: Representation, env: Environment, ms: set<Message>, i: Id, c: Candidate)
    ensures (i in CandidatesOf(rep, env, ms) && CandidatesOf(rep, env, ms)[i] == c) <==>
            i == c.handoff.interaction && Supported(rep, env, ms, c)
  {
    assert InProfile(rep, ms) == Read(rep, ms);
    if rep == PR {
      ReceiptCandidateIff(env, Read(rep, ms), i, c);
    } else {
      RecordCandidateIff(rep, env, Read(rep, ms), i, c);
    }
  }

  lemma LineOfPath(c: Candidates, skew: nat, path: seq<Id>) returns (line: seq<Candidate>)
    requires Keyed(c) && RootedPath(c, skew, path)
    ensures IsLine(skew, line) && |line| == |path|
    ensures forall k | 0 <= k < |line| :: path[k] in c && line[k] == c[path[k]]
  {
    line := seq(|path|, k requires 0 <= k < |path| => c[path[k]]);
    forall j, k | 0 <= j < |line| && k == j + 1 < |line|
      ensures line[k].handoff.previous == Some(line[j].handoff.interaction) && Hangs(line[j], line[k], skew)
    {
      assert c[path[k]].handoff.previous == Some(path[k - 1]) && Hangs(c[path[k - 1]], c[path[k]], skew);
    }
  }

  lemma PathOfLine(c: Candidates, skew: nat, line: seq<Candidate>) returns (path: seq<Id>)
    requires IsLine(skew, line)
    requires forall k | 0 <= k < |line| :: line[k].handoff.interaction in c && c[line[k].handoff.interaction] == line[k]
    ensures RootedPath(c, skew, path) && path[|path| - 1] == line[|line| - 1].handoff.interaction
  {
    path := seq(|line|, k requires 0 <= k < |line| => line[k].handoff.interaction);
    forall k | 1 <= k < |path|
      ensures c[path[k]].handoff.previous == Some(path[k - 1]) && Hangs(c[path[k - 1]], c[path[k]], skew)
    {
      var j := k - 1;
      assert line[k].handoff.previous == Some(line[j].handoff.interaction) && Hangs(line[j], line[k], skew);
    }
  }

  /** A supported handoff survives the parent checks exactly at the end of a supported line. */
  lemma EmittedIffLine(rep: Representation, env: Environment, ms: set<Message>, invalid: set<Id>, c: Candidate)
    ensures (c.handoff.interaction in Emitted(CandidatesOf(rep, env, ms), invalid, env.skew)
             && CandidatesOf(rep, env, ms)[c.handoff.interaction] == c) <==>
            exists line :: IsLine(env.skew, line) && AllSupported(rep, env, ms, line) && line[|line| - 1] == c
  {
    var i := c.handoff.interaction;
    if i in Emitted(CandidatesOf(rep, env, ms), invalid, env.skew) && CandidatesOf(rep, env, ms)[i] == c {
      var line := LineOfEmitted(rep, env, ms, invalid, i);
    }
    forall line | IsLine(env.skew, line) && AllSupported(rep, env, ms, line) && line[|line| - 1] == c
      ensures i in Emitted(CandidatesOf(rep, env, ms), invalid, env.skew) && CandidatesOf(rep, env, ms)[i] == c
    {
      LineIsEmitted(rep, env, ms, invalid, line);
    }
  }

  lemma LineOfEmitted(rep: Representation, env: Environment, ms: set<Message>, invalid: set<Id>, i: Id)
    returns (line: seq<Candidate>)
    requires i in Emitted(CandidatesOf(rep, env, ms), invalid, env.skew)
    ensures IsLine(env.skew, line) && AllSupported(rep, env, ms, line)
    ensures line[|line| - 1] == CandidatesOf(rep, env, ms)[i]
  {
    var path := EmittedIsRooted(CandidatesOf(rep, env, ms), invalid, env.skew, i);
    CandidatesKeyed(rep, env, ms);
    line := LineOfPath(CandidatesOf(rep, env, ms), env.skew, path);
    forall k | 0 <= k < |line|
      ensures Supported(rep, env, ms, line[k])
    {
      CandidateIff(rep, env, ms, path[k], line[k]);
    }
  }

  lemma LineIsEmitted(rep: Representation, env: Environment, ms: set<Message>, invalid: set<Id>, line: seq<Candidate>)
    requires IsLine(env.skew, line) && AllSupported(rep, env, ms, line)
    ensures var i := line[|line| - 1].handoff.interaction;
      i in Emitted(CandidatesOf(rep, env, ms), invalid, env.skew) && CandidatesOf(rep, env, ms)[i] == line[|line| - 1]
  {
    forall k | 0 <= k < |line|
      ensures line[k].handoff.interaction in CandidatesOf(rep, env, ms)
      ensures CandidatesOf(rep, env, ms)[line[k].handoff.interaction] == line[k]
    {
      CandidateIff(rep, env, ms, line[k].handoff.interaction, line[k]);
    }
    var path := PathOfLine(CandidatesOf(rep, env, ms), env.skew, line);
    RootedIsEmitted(CandidatesOf(rep, env, ms), invalid, env.skew, path, |path| - 1);
  }

  /** No handoff evidence in view is of another representation. */
  ghost predicate Unmixed(rep: Representation, ms: set<Message>) {
    forall m | m in ms && m.kind in {SignedEndpointRecord, CrossReferencedRecord, ReceiptKind} :: OfKind(rep, m)
  }

  lemma UnmixedMeaning(rep: Representation, ms: set<Message>)
    ensures Mixed(rep, ms) <==> !Unmixed(rep, ms)
  {
  }

  /** What policy is shown of a candidate. */
  function Shown(c: Candidate): PolicyView {
    PolicyView(c.handoff, true, true, c.decision == Accept, c.decision, c.decidedAt, true, true)
  }

  lemma ViewsAreShown(rep: Representation, env: Environment, ms: set<Message>, v: PolicyView)
    ensures v in ViewsOf(rep, env, ms) <==>
            && !Mixed(rep, ms)
            && v.handoff.interaction in Emitted(CandidatesOf(rep, env, ms), InvalidOf(rep, env, ms), env.skew)
            && v == Shown(CandidatesOf(rep, env, ms)[v.handoff.interaction])
  {
    CandidatesKeyed(rep, env, ms);
  }

  /**
   What policy is shown: a view is emitted if and only if the evidence is of one representation and
   some supported line ends in its handoff; and it says of the handoff what that line says.
   */
  lemma ViewIffSupportedLine(rep: Representation, env: Environment, ms: set<Message>, v: PolicyView)
    ensures v in ViewsOf(rep, env, ms) <==>
            && Unmixed(rep, ms)
            && exists line :: IsLine(env.skew, line) && AllSupported(rep, env, ms, line) && v == Shown(line[|line| - 1])
  {
    UnmixedMeaning(rep, ms);
    ViewsAreShown(rep, env, ms, v);
    var c := Candidate(v.handoff, v.decision, v.decidedAt);
    EmittedIffLine(rep, env, ms, InvalidOf(rep, env, ms), c);
  }
}
