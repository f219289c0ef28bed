/** Which issues are reported, and for what: each code as a statement about the messages in view. */
module Reporting {
  import opened Common
  import opened Model
  import opened Admission
  import opened Emission
  import opened Relation
  import opened Validation
  import opened Sequence
  import Endpoint
  import Receipts

  // ---------- what is reported of one message ----------

  /** The first test that a record's message fails, as it is reported. */
  function RecordComplaint(rep: Representation, env: Environment, m: Message): Option<Issue> {
    if !m.payload.EndpointPayload? || !RecordParses(m.payload.record) then Some(Issue(MalformedEvidence, None))
    else
      var r := m.payload.record;
      var i := Some(r.body.handoff.interaction);
      if !KnownSigner(env, r.body.holder) then Some(Issue(UnknownSigner, i))
      else if !RecordSigned(env, r) then Some(Issue(SignatureInvalid, i))
      else if !MayHold(env, m.origin, r.body.holder.principal, r.body.role) then Some(Issue(StoreBindingInvalid, i))
      else if !RecordInProfile(rep, r) then Some(Issue(ProfileViolation, i))
      else if !RecordSentInTime(env, m, r) then Some(Issue(TemporalInconsistency, i))
      else if !RecordDecidedInTime(env, r) then Some(Issue(FutureDecision, i))
      else None
  }

  function ReceiptComplaint(env: Environment, m: Message): Option<Issue> {
    if !m.payload.ReceiptPayload? || !ReceiptParses(m.payload.receipt) then Some(Issue(MalformedEvidence, None))
    else
      var r := m.payload.receipt;
      var i := Some(r.proposal.interaction);
      if !KnownSigner(env, r.proposal.sender) || !KnownSigner(env, r.proposal.receiver) then Some(Issue(UnknownSigner, i))
      else if !ReceiptSigned(env, r) then Some(Issue(SignatureInvalid, i))
      else if !HeldByOne(env, m.origin, r.proposal) then Some(Issue(StoreBindingInvalid, i))
      else if r.proposal.nonce != r.proposal.interaction then Some(Issue(ProfileViolation, i))
      else if !ReceiptSentInTime(env, m, r) then Some(Issue(TemporalInconsistency, i))
      else if r.decidedAt > env.cutoff + env.skew then Some(Issue(FutureDecision, i))
      else None
  }

  lemma RecordComplaintMeaning(rep: Representation, env: Environment, m: Message)
    ensures match RecordComplaint(rep, env, m)
            case None => Endpoint.Judge(rep, env, m).Admitted?
            case Some(Issue(ProfileViolation, Some(i))) => Endpoint.Judge(rep, env, m) == Endpoint.OutOfProfile(i)
            case Some(e) => Endpoint.Judge(rep, env, m) == Endpoint.Refused(e) && e.code != ProfileViolation
  {
    RecordJudged(rep, env, m);
  }

  lemma ReceiptComplaintMeaning(env: Environment, m: Message)
    ensures match ReceiptComplaint(env, m)
            case None => Receipts.Judge(env, m).Admitted?
            case Some(Issue(ProfileViolation, Some(i))) => Receipts.Judge(env, m) == Receipts.OutOfProfile(i)
            case Some(e) => Receipts.Judge(env, m) == Receipts.Refused(e) && e.code != ProfileViolation
  {
    ReceiptJudged(env, m);
  }

  /** Of each message its first fault is reported, and nothing else of any. */
  lemma RecordsReported(rep: Representation, env: Environment, ms: set<Message>, e: Issue)
    ensures e in Endpoint.MessageIssues(rep, env, ms) <==> exists m | m in ms :: RecordComplaint(rep, env, m) == Some(e)
  {
    if e in Endpoint.MessageIssues(rep, env, ms) {
      var m := ReportedRecord(rep, env, ms, e);
    }
    if m :| m in ms && RecordComplaint(rep, env, m) == Some(e) {
      ComplaintReported(rep, env, ms, m, e);
    }
  }

  lemma ReportedRecord(rep: Representation, env: Environment, ms: set<Message>, e: Issue) returns (m: Message)
    requires e in Endpoint.MessageIssues(rep, env, ms)
    ensures m in ms && RecordComplaint(rep, env, m) == Some(e)
  {
    if e in Endpoint.Refusals(rep, env, ms) {
      m :| m in ms && Endpoint.Judge(rep, env, m) == Endpoint.Refused(e);
    } else {
      var i :| i in Endpoint.TaintedIds(rep, env, ms) && e == Issue(ProfileViolation, Some(i));
      m :| m in ms && Endpoint.Judge(rep, env, m) == Endpoint.OutOfProfile(i);
    }
    RecordComplaintMeaning(rep, env, m);
  }

  lemma ComplaintReported(rep: Representation, env: Environment, ms: set<Message>, m: Message, e: Issue)
    requires m in ms && RecordComplaint(rep, env, m) == Some(e)
    ensures e in Endpoint.MessageIssues(rep, env, ms)
  {
    RecordComplaintMeaning(rep, env, m);
    if Endpoint.Judge(rep, env, m).Refused? {
      assert Endpoint.Judge(rep, env, m).issue in Endpoint.Refusals(rep, env, ms);
    } else {
      assert Endpoint.Judge(rep, env, m).interaction in Endpoint.TaintedIds(rep, env, ms);
    }
  }

  lemma ReceiptsReported(env: Environment, ms: set<Message>, e: Issue)
    ensures e in Receipts.MessageIssues(env, ms) <==> exists m | m in ms :: ReceiptComplaint(env, m) == Some(e)
  {
    if e in Receipts.MessageIssues(env, ms) {
      var m := ReportedReceipt(env, ms, e);
    }
    if m :| m in ms && ReceiptComplaint(env, m) == Some(e) {
      ReceiptComplaintReported(env, ms, m, e);
    }
  }

  lemma ReportedReceipt(env: Environment, ms: set<Message>, e: Issue) returns (m: Message)
    requires e in Receipts.MessageIssues(env, ms)
    ensures m in ms && ReceiptComplaint(env, m) == Some(e)
  {
    if e in Receipts.Refusals(env, ms) {
      m :| m in ms && Receipts.Judge(env, m) == Receipts.Refused(e);
    } else {
      var i :| i in Receipts.TaintedIds(env, ms) && e == Issue(ProfileViolation, Some(i));
      m :| m in ms && Receipts.Judge(env, m) == Receipts.OutOfProfile(i);
    }
    ReceiptComplaintMeaning(env, m);
  }

  lemma ReceiptComplaintReported(env: Environment, ms: set<Message>, m: Message, e: Issue)
    requires m in ms && ReceiptComplaint(env, m) == Some(e)
    ensures e in Receipts.MessageIssues(env, ms)
  {
    ReceiptComplaintMeaning(env, m);
    if Receipts.Judge(env, m).Refused? {
      assert Receipts.Judge(env, m).issue in Receipts.Refusals(env, ms);
    } else {
      assert Receipts.Judge(env, m).interaction in Receipts.TaintedIds(env, ms);
    }
  }

  // ---------- what is reported of the records of one interaction ----------

  predicate RecordOf(x: EndpointRecord, role: Role, i: Id) {
    x.body.role == role && x.body.handoff.interaction == i
  }

  /** A sender's record of the interaction shares its sequence number with one of another interaction. */
  ghost predicate SlotShared(rs: set<EndpointRecord>, i: Id) {
    exists x, y | x in rs && y in rs ::
      && RecordOf(x, Sender, i) && y.body.role == Sender && y.body.handoff.interaction != i
      && SameSlot(x.body.handoff, y.body.handoff)
  }

  ghost predicate RecordTwice(rs: set<EndpointRecord>, i: Id) {
    exists x, y, role | x in rs && y in rs :: x != y && RecordOf(x, role, i) && RecordOf(y, role, i)
  }

  ghost predicate SolePair(rs: set<EndpointRecord>, i: Id, s: EndpointRecord, r: EndpointRecord) {
    && s in rs && RecordOf(s, Sender, i) && r in rs && RecordOf(r, Receiver, i)
    && forall x | x in rs && x.body.handoff.interaction == i :: x == s || x == r
  }

  /** What is wrong with the accepted records of an interaction that nothing out of profile speaks against. */
  ghost predicate GroupComplaint(rep: Representation, rs: set<EndpointRecord>, code: IssueCode, i: Id) {
    match code
    case Equivocation => RecordTwice(rs, i)
    case EndpointMissing =>
      && !RecordTwice(rs, i) && (exists x | x in rs :: x.body.handoff.interaction == i)
      && ((forall x | x in rs :: !RecordOf(x, Sender, i)) || forall x | x in rs :: !RecordOf(x, Receiver, i))
    case EndpointMismatch =>
      !SlotShared(rs, i) && exists s, r :: SolePair(rs, i, s, r) && s.body.handoff != r.body.handoff
    case CrossReferenceInvalid =>
      && rep == CR && !SlotShared(rs, i)
      && exists s, r :: SolePair(rs, i, s, r) && s.body.handoff == r.body.handoff && r.body.senderRecord != Some(RecordDigest(s))
    case _ => false
  }

  lemma SlotSharedMeaning(rs: set<EndpointRecord>, i: Id)
    ensures i in Conflicts(Endpoint.Claims(rs)) <==> SlotShared(rs, i)
  {
    var claims := Endpoint.Claims(rs);
    if i in Conflicts(claims) {
      var k, other :| (k, i) in claims && (k, other) in claims && other != i;
      var x :| x in rs && x.body.role == Sender && (x.body.handoff.SenderSlot(), Endpoint.InteractionOf(x)) == (k, i);
      var y :| y in rs && y.body.role == Sender && (y.body.handoff.SenderSlot(), Endpoint.InteractionOf(y)) == (k, other);
      assert RecordOf(x, Sender, i) && SameSlot(x.body.handoff, y.body.handoff);
    }
    if x, y :| x in rs && y in rs && RecordOf(x, Sender, i) && y.body.role == Sender && y.body.handoff.interaction != i
               && SameSlot(x.body.handoff, y.body.handoff) {
      SharedSlotConflicts(claims, (x.body.handoff.SenderSlot(), i), (y.body.handoff.SenderSlot(), y.body.handoff.interaction));
    }
  }

  lemma HeldMeaning(rs: set<EndpointRecord>, role: Role, i: Id)
    ensures |Endpoint.HeldBy(rs, role, i)| == 0 <==> forall x | x in rs :: !RecordOf(x, role, i)
    ensures |Endpoint.HeldBy(rs, role, i)| > 1 <==>
            exists x, y | x in rs && y in rs :: x != y && RecordOf(x, role, i) && RecordOf(y, role, i)
  {
    var held := Endpoint.HeldBy(rs, role, i);
    if x :| x in rs && RecordOf(x, role, i) {
      assert x in held;
      if |held| > 1 {
        var y := AnotherMember(held, x);
        assert RecordOf(y, role, i);
      }
    } else {
      assert held == {};
    }
    if x, y :| x in rs && y in rs && x != y && RecordOf(x, role, i) && RecordOf(y, role, i) {
      TwoMembers(held, x, y);
    }
  }

  lemma TwiceMeaning(rs: set<EndpointRecord>, i: Id)
    ensures RecordTwice(rs, i) <==>
            |Endpoint.HeldBy(rs, Sender, i)| > 1 || |Endpoint.HeldBy(rs, Receiver, i)| > 1
  {
    HeldMeaning(rs, Sender, i);
    HeldMeaning(rs, Receiver, i);
    if x, y, role :| x in rs && y in rs && x != y && RecordOf(x, role, i) && RecordOf(y, role, i) {
      assert role == Sender || role == Receiver;
    }
  }

  lemma SoleMeaning(rs: set<EndpointRecord>, i: Id, s: EndpointRecord, r: EndpointRecord)
    ensures SolePair(rs, i, s, r) <==>
            Endpoint.HeldBy(rs, Sender, i) == {s} && Endpoint.HeldBy(rs, Receiver, i) == {r}
  {
    var senders, receivers := Endpoint.HeldBy(rs, Sender, i), Endpoint.HeldBy(rs, Receiver, i);
    if senders == {s} && receivers == {r} {
      assert s in senders && r in receivers;
      forall x | x in rs && x.body.handoff.interaction == i
        ensures x == s || x == r
      {
        assert x in Endpoint.HeldBy(rs, x.body.role, i);
      }
    }
  }

  /** The verdict on a group, in the order of its tests. */
  lemma GroupVerdict(rep: Representation, rs: set<EndpointRecord>, i: Id)
    requires Endpoint.AllDecided(rs) && i in Endpoint.Interactions(rs)
    ensures var verdict := Endpoint.Resolve(rep, rs, i);
      forall code :: verdict == Err(Some(code)) <==> GroupComplaint(rep, rs, code, i)
  {
    var senders, receivers := Endpoint.HeldBy(rs, Sender, i), Endpoint.HeldBy(rs, Receiver, i);
    var verdict := Endpoint.Resolve(rep, rs, i);
    TwiceMeaning(rs, i);
    HeldMeaning(rs, Sender, i);
    HeldMeaning(rs, Receiver, i);
    SlotSharedMeaning(rs, i);
    assert exists x | x in rs :: x.body.handoff.interaction == i by {
      var x :| x in rs && Endpoint.InteractionOf(x) == i;
    }
    if |senders| == 1 && |receivers| == 1 {
      PairVerdict(rep, rs, i, Endpoint.The(senders), Endpoint.The(receivers));
    } else {
      forall s, r
        ensures !SolePair(rs, i, s, r)
      {
        SoleMeaning(rs, i, s, r);
      }
    }
  }

  lemma PairVerdict(rep: Representation, rs: set<EndpointRecord>, i: Id, s: EndpointRecord, r: EndpointRecord)
    requires Endpoint.AllDecided(rs)
    requires Endpoint.HeldBy(rs, Sender, i) == {s} && Endpoint.HeldBy(rs, Receiver, i) == {r}
    ensures var verdict := Endpoint.Resolve(rep, rs, i);
      forall code :: verdict == Err(Some(code)) <==> GroupComplaint(rep, rs, code, i)
  {
    SoleMeaning(rs, i, s, r);
    TwiceMeaning(rs, i);
    SlotSharedMeaning(rs, i);
    forall s', r' | SolePair(rs, i, s', r')
      ensures s' == s && r' == r
    {
      SoleMeaning(rs, i, s', r');
    }
    assert s in Endpoint.HeldBy(rs, Sender, i) && r in Endpoint.HeldBy(rs, Receiver, i);
    assert Endpoint.The({s}) == s by { assert Endpoint.The({s}) in {s}; }
    assert Endpoint.The({r}) == r by { assert Endpoint.The({r}) in {r}; }
  }

  /** What is reported of groups: a shared sequence number always, and otherwise the first fault of each untainted group. */
  lemma GroupsReported(rep: Representation, rs: set<EndpointRecord>, tainted: set<Id>, e: Issue)
    requires Endpoint.AllDecided(rs)
    ensures e in Endpoint.GroupIssues(rep, rs, tainted) <==>
            && e.interaction.Some?
            && ((e.code == Equivocation && SlotShared(rs, e.interaction.value))
                || (e.interaction.value !in tainted && GroupComplaint(rep, rs, e.code, e.interaction.value)))
  {
    if e.interaction.Some? {
      var i := e.interaction.value;
      SlotSharedMeaning(rs, i);
      if i in Endpoint.Interactions(rs) {
        GroupVerdict(rep, rs, i);
      } else {
        NoGroupNoComplaint(rep, rs, e.code, i);
      }
    }
  }

  lemma NoGroupNoComplaint(rep: Representation, rs: set<EndpointRecord>, code: IssueCode, i: Id)
    requires i !in Endpoint.Interactions(rs)
    ensures !GroupComplaint(rep, rs, code, i)
  {
    forall x | x in rs
      ensures x.body.handoff.interaction != i
    {
      assert Endpoint.InteractionOf(x) in Endpoint.Interactions(rs);
    }
  }

  // ---------- what is reported of receipts ----------

  ghost predicate ReceiptSlotShared(rs: set<Receipt>, i: Id) {
    exists x, y | x in rs && y in rs ::
      && x.proposal.interaction == i && y.proposal.interaction != i
      && x.proposal.sender.principal == y.proposal.sender.principal && x.proposal.sender.key == y.proposal.sender.key
      && x.proposal.sequence == y.proposal.sequence
  }

  ghost predicate ReceiptTwice(rs: set<Receipt>, i: Id) {
    exists x, y | x in rs && y in rs :: x != y && x.proposal.interaction == i && y.proposal.interaction == i
  }

  /** The receipt names a parent that is no uncontested receipt in view: one in view all the same, or none at all. */
  ghost predicate ParentUnresolved(env: Environment, ms: set<Message>, r: Receipt, inView: bool) {
    && r.proposal.previousReceipt.Some?
    && var parent := r.proposal.previousReceipt.value;
       && !(parent.ReceiptDigest? && Uncontested(env, ms, parent.receipt))
       && (inView <==> parent.ReceiptDigest? && ReceiptInView(env, ms, parent.receipt))
  }

  /** An uncontested receipt of the interaction names a parent that does not resolve. */
  ghost predicate LinkComplaint(env: Environment, ms: set<Message>, code: IssueCode, i: Id) {
    exists r ::
      && Uncontested(env, ms, r) && r.proposal.interaction == i
      && ((code == ParentInvalid && ParentUnresolved(env, ms, r, true))
          || (code == ParentMissing && ParentUnresolved(env, ms, r, false)))
  }

  ghost predicate ReceiptGroupComplaint(env: Environment, ms: set<Message>, code: IssueCode, i: Id) {
    || (code == Equivocation && ReceiptSlotShared(Receipts.Records(env, ms), i))
    || (code == Equivocation && !ReceiptAgainst(env, ms, i) && ReceiptTwice(Receipts.Records(env, ms), i))
    || LinkComplaint(env, ms, code, i)
  }

  lemma ReceiptsSeen(env: Environment, ms: set<Message>, r: Receipt)
    ensures r in Receipts.Records(env, ms) <==> ReceiptInView(env, ms, r)
  {
    Receipts.RecordsInView(env, ms, r);
    ReceiptsAreInView(env, ms, r);
  }

  lemma ReceiptSlotMeaning(rs: set<Receipt>, i: Id)
    ensures i in Conflicts(Receipts.Claims(rs)) <==> ReceiptSlotShared(rs, i)
  {
    var claims := Receipts.Claims(rs);
    if i in Conflicts(claims) {
      var k, other :| (k, i) in claims && (k, other) in claims && other != i;
      var x :| x in rs && (x.proposal.SenderSlot(), x.proposal.interaction) == (k, i);
      var y :| y in rs && (y.proposal.SenderSlot(), y.proposal.interaction) == (k, other);
      assert x.proposal.SenderSlot() == y.proposal.SenderSlot();
    }
    if x, y :| x in rs && y in rs && x.proposal.interaction == i && y.proposal.interaction != i
               && x.proposal.sender.principal == y.proposal.sender.principal && x.proposal.sender.key == y.proposal.sender.key
               && x.proposal.sequence == y.proposal.sequence {
      SharedSlotConflicts(claims, (x.proposal.SenderSlot(), i), (y.proposal.SenderSlot(), y.proposal.interaction));
    }
  }

  lemma ReceiptTwiceMeaning(rs: set<Receipt>, i: Id)
    requires i in Receipts.Interactions(rs)
    ensures |Receipts.Named(rs, i)| != 1 <==> ReceiptTwice(rs, i)
  {
    var named := Receipts.Named(rs, i);
    var x :| x in rs && x.proposal.interaction == i;
    assert x in named;
    if |named| > 1 {
      var y := AnotherMember(named, x);
      assert y in rs && y.proposal.interaction == i;
    }
    if a, b :| a in rs && b in rs && a != b && a.proposal.interaction == i && b.proposal.interaction == i {
      TwoMembers(named, a, b);
    }
  }

  lemma LinkError(env: Environment, ms: set<Message>, r: Receipt, code: IssueCode)
    ensures var rs := Receipts.Records(env, ms);
      Receipts.Link(Receipts.DigestsOf(rs), Receipts.SelectedReceipts(rs, Receipts.TaintedIds(env, ms)), r) == Err(code) <==>
      (code == ParentInvalid && ParentUnresolved(env, ms, r, true)) || (code == ParentMissing && ParentUnresolved(env, ms, r, false))
  {
    if r.proposal.previousReceipt.Some? {
      var parent := r.proposal.previousReceipt.value;
      Receipts.ParentUnopposed(env, ms, parent);
      if parent.ReceiptDigest? {
        UncontestedMeaning(env, ms, parent.receipt);
        ReceiptsSeen(env, ms, parent.receipt);
      }
    }
  }

  lemma LinksReported(env: Environment, ms: set<Message>, e: Issue)
    ensures e in Receipts.LinkIssues(Receipts.Records(env, ms), Receipts.TaintedIds(env, ms)) <==>
            e.interaction.Some? && LinkComplaint(env, ms, e.code, e.interaction.value)
  {
    var rs, tainted := Receipts.Records(env, ms), Receipts.TaintedIds(env, ms);
    var selected := Receipts.SelectedReceipts(rs, tainted);
    Receipts.SelectedKeyed(rs, tainted);
    if e in Receipts.LinkIssues(rs, tainted) {
      var i :| i in selected && Receipts.Link(Receipts.DigestsOf(rs), selected, selected[i]).Err?
               && e == Issue(Receipts.Link(Receipts.DigestsOf(rs), selected, selected[i]).error, Some(i));
      Receipts.SelectedIsUnopposed(env, ms, selected[i]);
      UncontestedMeaning(env, ms, selected[i]);
      LinkError(env, ms, selected[i], e.code);
    }
    if e.interaction.Some? {
      forall r | Uncontested(env, ms, r) && r.proposal.interaction == e.interaction.value
        ensures Receipts.Link(Receipts.DigestsOf(rs), selected, r) == Err(e.code) ==> e in Receipts.LinkIssues(rs, tainted)
        ensures Receipts.Link(Receipts.DigestsOf(rs), selected, r) == Err(e.code) <==>
                || (e.code == ParentInvalid && ParentUnresolved(env, ms, r, true))
                || (e.code == ParentMissing && ParentUnresolved(env, ms, r, false))
      {
        UncontestedMeaning(env, ms, r);
        Receipts.SelectedIsUnopposed(env, ms, r);
        LinkError(env, ms, r, e.code);
      }
    }
  }

  lemma SelectionReported(env: Environment, ms: set<Message>, e: Issue)
    ensures e in Receipts.SelectionIssues(Receipts.Records(env, ms), Receipts.TaintedIds(env, ms)) <==>
            && e.code == Equivocation && e.interaction.Some?
            && !ReceiptAgainst(env, ms, e.interaction.value) && ReceiptTwice(Receipts.Records(env, ms), e.interaction.value)
  {
    var rs := Receipts.Records(env, ms);
    if e.interaction.Some? {
      var i := e.interaction.value;
      ReceiptTaints(env, ms, i);
      assert i in Receipts.TaintedIds(env, ms) <==> exists m | m in ms :: Receipts.Judge(env, m) == Receipts.OutOfProfile(i);
      if i in Receipts.Interactions(rs) {
        ReceiptTwiceMeaning(rs, i);
      } else {
        assert forall x | x in rs :: x.proposal.interaction in Receipts.Interactions(rs);
      }
    }
  }

  /** What is reported of receipts beyond their own faults. */
  lemma ReceiptGroupsReported(env: Environment, ms: set<Message>, e: Issue)
    ensures e in Receipts.GroupIssues(Receipts.Records(env, ms), Receipts.TaintedIds(env, ms)) <==>
            e.interaction.Some? && ReceiptGroupComplaint(env, ms, e.code, e.interaction.value)
  {
    SelectionReported(env, ms, e);
    LinksReported(env, ms, e);
    SlotsReported(Receipts.Records(env, ms), e);
  }

  lemma SlotsReported(rs: set<Receipt>, e: Issue)
    ensures e in Receipts.Equivocations(Conflicts(Receipts.Claims(rs))) <==>
            e.code == Equivocation && e.interaction.Some? && ReceiptSlotShared(rs, e.interaction.value)
  {
    if e.interaction.Some? {
      ReceiptSlotMeaning(rs, e.interaction.value);
    }
  }

  // ---------- the report ----------

  /** The records that pass every test on their message. */
  ghost function Seen(rep: Representation, env: Environment, ms: set<Message>): (rs: set<EndpointRecord>)
    ensures forall r :: r in rs <==> RecordInView(rep, env, ms, r)
  {
    var rs := set m | m in ms && m.payload.EndpointPayload? && RecordAccepted(rep, env, m, m.payload.record) :: m.payload.record;
    assert forall r | RecordInView(rep, env, ms, r) :: r in rs;
    rs
  }

  ghost predicate Complaint(rep: Representation, env: Environment, ms: set<Message>, e: Issue) {
    if rep == PR then
      || (exists m | m in ms :: ReceiptComplaint(env, m) == Some(e))
      || (e.interaction.Some? && ReceiptGroupComplaint(env, ms, e.code, e.interaction.value))
    else
      || (exists m | m in ms :: RecordComplaint(rep, env, m) == Some(e))
      || (e.interaction.Some? &&
          ((e.code == Equivocation && SlotShared(Seen(rep, env, ms), e.interaction.value))
           || (!RecordAgainst(rep, env, ms, e.interaction.value)
               && GroupComplaint(rep, Seen(rep, env, ms), e.code, e.interaction.value))))
  }

  lemma SeenAreTheRecords(rep: Representation, env: Environment, ms: set<Message>)
    ensures Endpoint.Records(rep, env, ms) == Seen(rep, env, ms)
  {
    forall r
      ensures r in Endpoint.Records(rep, env, ms) <==> r in Seen(rep, env, ms)
    {
      RecordsAreInView(rep, env, ms, r);
    }
  }

  /** Everything admission reports, code by code: of single messages, and of the messages of one interaction together. */
  lemma AdmissionReported(rep: Representation, env: Environment, ms: set<Message>, e: Issue)
    ensures e in AdmissionIssues(rep, env, ms) <==> Complaint(rep, env, Read(rep, ms), e)
  {
    var read := Read(rep, ms);
    assert InProfile(rep, ms) == read;
    if rep == PR {
      ReceiptsReported(env, read, e);
      ReceiptGroupsReported(env, read, e);
    } else {
      Endpoint.RecordsDecided(rep, env, read);
      RecordsReported(rep, env, read, e);
      SeenAreTheRecords(rep, env, read);
      GroupsReported(rep, Endpoint.Records(rep, env, read), Endpoint.TaintedIds(rep, env, read), e);
      if e.interaction.Some? {
        RecordTaints(rep, env, read, e.interaction.value);
      }
    }
  }

  /** The interactions that count as invalid parents: authenticated in view, and no candidate for all that. */
  lemma InvalidMeaning(rep: Representation, env: Environment, ms: set<Message>, i: Id)
    ensures i in InvalidOf(rep, env, ms) <==>
            if rep == PR then
              || ReceiptAgainst(env, Read(rep, ms), i)
              || ((exists r :: ReceiptInView(env, Read(rep, ms), r) && r.proposal.interaction == i)
                  && forall c | Supported(rep, env, ms, c) :: c.handoff.interaction != i)
            else
              || RecordAgainst(rep, env, Read(rep, ms), i)
              || ((exists r :: RecordInView(rep, env, Read(rep, ms), r) && r.body.handoff.interaction == i)
                  && forall c | Supported(rep, env, ms, c) :: c.handoff.interaction != i)
  {
    var read := Read(rep, ms);
    assert InProfile(rep, ms) == read;
    CandidateOrNot(rep, env, ms, i);
    if rep == PR {
      ReceiptTaints(env, read, i);
      assert i in Receipts.TaintedIds(env, read) <==> exists m | m in read :: Receipts.Judge(env, m) == Receipts.OutOfProfile(i);
      forall r
        ensures r in Receipts.Records(env, read) <==> ReceiptInView(env, read, r)
      {
        ReceiptsSeen(env, read, r);
      }
    } else {
      RecordTaints(rep, env, read, i);
      SeenAreTheRecords(rep, env, read);
      assert i in Endpoint.Interactions(Seen(rep, env, read)) <==>
             exists r :: RecordInView(rep, env, read, r) && Endpoint.InteractionOf(r) == i;
    }
  }

  lemma CandidateOrNot(rep: Representation, env: Environment, ms: set<Message>, i: Id)
    ensures i in CandidatesOf(rep, env, ms) <==> exists c :: Supported(rep, env, ms, c) && c.handoff.interaction == i
  {
    if i in CandidatesOf(rep, env, ms) {
      CandidateIff(rep, env, ms, i, CandidatesOf(rep, env, ms)[i]);
    }
    if c :| Supported(rep, env, ms, c) && c.handoff.interaction == i {
      CandidateIff(rep, env, ms, i, c);
    }
  }

  /**
   The report, issue by issue: evidence of the wrong kind or none at all, what admission complains
   of, and, if the evidence is of one kind, each candidate whose relation to its parent fails, with the
   failure that `FailureMeaning` describes.
   */
  lemma IssueIff(rep: Representation, env: Environment, ms: set<Message>, e: Issue)
    ensures e in IssuesOf(rep, env, ms) <==>
            || (e == Issue(PayloadKindMismatch, None) && !Unmixed(rep, ms))
            || (e == Issue(EvidenceMissing, None) && Read(rep, ms) == {})
            || Complaint(rep, env, Read(rep, ms), e)
            || (Unmixed(rep, ms) && e in RelationIssues(CandidatesOf(rep, env, ms), InvalidOf(rep, env, ms), env.skew))
  {
    UnmixedMeaning(rep, ms);
    AdmissionReported(rep, env, ms, e);
    assert InProfile(rep, ms) == Read(rep, ms);
  }
}
