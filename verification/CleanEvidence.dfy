/** When the validator has nothing to report: every message it reads is part of some supported line. */
module CleanEvidence {
  import opened Common
  import opened Model
  import opened Admission
  import opened Emission
  import opened Relation
  import opened Validation
  import opened Sequence
  import Endpoint
  import Receipts

  // ---------- records ----------

  /** The message is one half of a pair that nothing in view speaks against. */
  ghost predicate InPair(rep: Representation, env: Environment, ms: set<Message>, m: Message, s: EndpointRecord, r: EndpointRecord) {
    Paired(rep, env, ms, s, r) && (RecordAccepted(rep, env, m, s) || RecordAccepted(rep, env, m, r))
  }

  ghost predicate Matched(rep: Representation, env: Environment, ms: set<Message>, m: Message) {
    exists s, r :: InPair(rep, env, ms, m, s, r)
  }

  ghost predicate AllMatched(rep: Representation, env: Environment, ms: set<Message>) {
    forall m {:trigger Matched(rep, env, ms, m)} | m in ms :: Matched(rep, env, ms, m)
  }

  ghost function RecordIssues(rep: Representation, env: Environment, ms: set<Message>): set<Issue> {
    Endpoint.RecordsDecided(rep, env, ms);
    Endpoint.MessageIssues(rep, env, ms)
    + Endpoint.GroupIssues(rep, Endpoint.Records(rep, env, ms), Endpoint.TaintedIds(rep, env, ms))
  }

  lemma SilentMessagesAdmitted(rep: Representation, env: Environment, ms: set<Message>)
    ensures Endpoint.MessageIssues(rep, env, ms) == {} <==> forall m | m in ms :: Endpoint.Judge(rep, env, m).Admitted?
    ensures Endpoint.MessageIssues(rep, env, ms) == {} ==> Endpoint.TaintedIds(rep, env, ms) == {}
  {
    if m :| m in ms && Endpoint.Judge(rep, env, m).Refused? {
      assert Endpoint.Judge(rep, env, m).issue in Endpoint.MessageIssues(rep, env, ms);
    }
    if m :| m in ms && Endpoint.Judge(rep, env, m).OutOfProfile? {
      assert Endpoint.Judge(rep, env, m).interaction in Endpoint.TaintedIds(rep, env, ms);
    }
    if i :| i in Endpoint.TaintedIds(rep, env, ms) {
      assert Issue(ProfileViolation, Some(i)) in Endpoint.MessageIssues(rep, env, ms);
    }
  }

  /** With no issue about any group, every interaction resolves. */
  lemma SilentGroupsResolve(rep: Representation, rs: set<EndpointRecord>)
    requires Endpoint.AllDecided(rs)
    ensures Endpoint.GroupIssues(rep, rs, {}) == {} <==>
            forall i | i in Endpoint.Interactions(rs) :: Endpoint.Resolve(rep, rs, i).Ok?
  {
    var conflicts := Conflicts(Endpoint.Claims(rs));
    if Endpoint.GroupIssues(rep, rs, {}) == {} {
      forall i | i in Endpoint.Interactions(rs)
        ensures Endpoint.Resolve(rep, rs, i).Ok?
      {
        GroupIsReported(rep, rs, i);
      }
    } else {
      var e :| e in Endpoint.GroupIssues(rep, rs, {});
      if i :| i in conflicts && e == Issue(Equivocation, Some(i)) {
        ContestedIsNoCandidate(rep, rs, i);
      }
    }
  }

  lemma GroupIsReported(rep: Representation, rs: set<EndpointRecord>, i: Id)
    requires Endpoint.AllDecided(rs) && i in Endpoint.Interactions(rs)
    ensures Endpoint.Resolve(rep, rs, i).Ok? || Endpoint.GroupIssues(rep, rs, {}) != {}
  {
    match Endpoint.Resolve(rep, rs, i)
    case Ok(_) =>
    case Err(Some(code)) => assert Issue(code, Some(i)) in Endpoint.GroupIssues(rep, rs, {});
    case Err(None) =>
      assert i in Conflicts(Endpoint.Claims(rs));
      assert Issue(Equivocation, Some(i)) in Endpoint.GroupIssues(rep, rs, {});
  }

  lemma ContestedIsNoCandidate(rep: Representation, rs: set<EndpointRecord>, i: Id)
    requires Endpoint.AllDecided(rs) && i in Conflicts(Endpoint.Claims(rs))
    ensures i in Endpoint.Interactions(rs) && Endpoint.Resolve(rep, rs, i).Err?
  {
    var claim :| claim in Endpoint.Claims(rs) && claim.1 == i;
    var x :| x in rs && x.body.role == Sender && (x.body.handoff.SenderSlot(), Endpoint.InteractionOf(x)) == claim;
  }

  /** Records are silent exactly if every message is half of an unopposed pair. */
  lemma CleanRecords(rep: Representation, env: Environment, ms: set<Message>)
    ensures RecordIssues(rep, env, ms) == {} <==> AllMatched(rep, env, ms)
  {
    var rs := Endpoint.Records(rep, env, ms);
    Endpoint.RecordsDecided(rep, env, ms);
    SilentMessagesAdmitted(rep, env, ms);
    SilentGroupsResolve(rep, rs);
    if RecordIssues(rep, env, ms) == {} {
      forall m | m in ms
        ensures Matched(rep, env, ms, m)
      {
        var s, r := PairOfMessage(rep, env, ms, m);
      }
    }
    if AllMatched(rep, env, ms) {
      PairsAreSilent(rep, env, ms);
    }
  }

  lemma PairOfMessage(rep: Representation, env: Environment, ms: set<Message>, m: Message)
    returns (s: EndpointRecord, r: EndpointRecord)
    requires RecordIssues(rep, env, ms) == {} && m in ms
    ensures InPair(rep, env, ms, m, s, r)
  {
    Endpoint.RecordsDecided(rep, env, ms);
    SilentMessagesAdmitted(rep, env, ms);
    SilentGroupsResolve(rep, Endpoint.Records(rep, env, ms));
    var x := Endpoint.Judge(rep, env, m).record;
    var i := x.body.handoff.interaction;
    assert x in Endpoint.Records(rep, env, ms);
    assert Endpoint.InteractionOf(x) in Endpoint.Interactions(Endpoint.Records(rep, env, ms));
    RecordTaints(rep, env, ms, i);
    s, r := ResolvedIsPaired(rep, env, ms, i);
    RecordAdmittedIff(rep, env, m, x);
    RecordsAreInView(rep, env, ms, x);
  }

  lemma PairsAreSilent(rep: Representation, env: Environment, ms: set<Message>)
    requires AllMatched(rep, env, ms)
    ensures RecordIssues(rep, env, ms) == {}
  {
    var rs := Endpoint.Records(rep, env, ms);
    Endpoint.RecordsDecided(rep, env, ms);
    SilentMessagesAdmitted(rep, env, ms);
    SilentGroupsResolve(rep, rs);
    forall m | m in ms
      ensures Endpoint.Judge(rep, env, m).Admitted?
      ensures Endpoint.Resolve(rep, rs, Endpoint.InteractionOf(Endpoint.Judge(rep, env, m).record)).Ok?
    {
      assert Matched(rep, env, ms, m);
      var s, r :| InPair(rep, env, ms, m, s, r);
      InPairResolves(rep, env, ms, m, s, r);
    }
  }

  lemma InPairResolves(rep: Representation, env: Environment, ms: set<Message>, m: Message, s: EndpointRecord, r: EndpointRecord)
    requires InPair(rep, env, ms, m, s, r)
    ensures Endpoint.AllDecided(Endpoint.Records(rep, env, ms)) && Endpoint.Judge(rep, env, m).Admitted?
    ensures Endpoint.Resolve(rep, Endpoint.Records(rep, env, ms), Endpoint.InteractionOf(Endpoint.Judge(rep, env, m).record)).Ok?
  {
    RecordAdmittedIff(rep, env, m, s);
    RecordAdmittedIff(rep, env, m, r);
    PairedIsResolved(rep, env, ms, s, r);
  }

  // ---------- receipts ----------

  ghost function ReceiptIssues(env: Environment, ms: set<Message>): set<Issue> {
    Receipts.MessageIssues(env, ms)
    + Receipts.GroupIssues(Receipts.Records(env, ms), Receipts.TaintedIds(env, ms))
  }

  ghost predicate Stands(env: Environment, ms: set<Message>, m: Message, r: Receipt, c: Candidate) {
    ReceiptAccepted(env, m, r) && Uncontested(env, ms, r) && StandsFor(env, ms, r, c)
  }

  ghost predicate Standing(env: Environment, ms: set<Message>, m: Message) {
    exists r, c :: Stands(env, ms, m, r, c)
  }

  ghost predicate AllStanding(env: Environment, ms: set<Message>) {
    forall m {:trigger Standing(env, ms, m)} | m in ms :: Standing(env, ms, m)
  }

  lemma SilentReceiptsAdmitted(env: Environment, ms: set<Message>)
    ensures Receipts.MessageIssues(env, ms) == {} <==> forall m | m in ms :: Receipts.Judge(env, m).Admitted?
    ensures Receipts.MessageIssues(env, ms) == {} ==> Receipts.TaintedIds(env, ms) == {}
  {
    if m :| m in ms && Receipts.Judge(env, m).Refused? {
      assert Receipts.Judge(env, m).issue in Receipts.MessageIssues(env, ms);
    }
    if m :| m in ms && Receipts.Judge(env, m).OutOfProfile? {
      assert Receipts.Judge(env, m).interaction in Receipts.TaintedIds(env, ms);
    }
    if i :| i in Receipts.TaintedIds(env, ms) {
      assert Issue(ProfileViolation, Some(i)) in Receipts.MessageIssues(env, ms);
    }
  }

  /** With no issue about any receipt, every interaction has one that links. */
  lemma SilentGroupsLink(rs: set<Receipt>)
    ensures Receipts.GroupIssues(rs, {}) == {} <==>
            forall i | i in Receipts.Interactions(rs) :: i in Receipts.CandidatesFrom(rs, {})
  {
    Receipts.SelectedKeyed(rs, {});
    if Receipts.GroupIssues(rs, {}) == {} {
      forall i | i in Receipts.Interactions(rs)
        ensures i in Receipts.CandidatesFrom(rs, {})
      {
        ReceiptGroupIsReported(rs, i);
      }
    } else {
      var e :| e in Receipts.GroupIssues(rs, {});
      ReportedIsNoCandidate(rs, e);
    }
  }

  lemma ReceiptGroupIsReported(rs: set<Receipt>, i: Id)
    requires i in Receipts.Interactions(rs)
    ensures i in Receipts.CandidatesFrom(rs, {}) || Receipts.GroupIssues(rs, {}) != {}
  {
    var selected := Receipts.SelectedReceipts(rs, {});
    if i in Conflicts(Receipts.Claims(rs)) {
      assert Issue(Equivocation, Some(i)) in Receipts.GroupIssues(rs, {});
    } else if |Receipts.Named(rs, i)| != 1 {
      assert Issue(Equivocation, Some(i)) in Receipts.GroupIssues(rs, {});
    } else if Receipts.Link(Receipts.DigestsOf(rs), selected, selected[i]).Err? {
      assert Issue(Receipts.Link(Receipts.DigestsOf(rs), selected, selected[i]).error, Some(i)) in Receipts.GroupIssues(rs, {});
    }
  }

  lemma ReportedIsNoCandidate(rs: set<Receipt>, e: Issue)
    requires e in Receipts.GroupIssues(rs, {})
    ensures exists i :: i in Receipts.Interactions(rs) && i !in Receipts.CandidatesFrom(rs, {})
  {
    Receipts.SelectedKeyed(rs, {});
    if i :| i in Conflicts(Receipts.Claims(rs)) && e == Issue(Equivocation, Some(i)) {
      var claim :| claim in Receipts.Claims(rs) && claim.1 == i;
      assert i in Receipts.Interactions(rs);
    }
  }

  /** Receipts are silent exactly if every message carries an uncontested receipt whose parent resolves. */
  lemma CleanReceipts(env: Environment, ms: set<Message>)
    ensures ReceiptIssues(env, ms) == {} <==> AllStanding(env, ms)
  {
    SilentReceiptsAdmitted(env, ms);
    SilentGroupsLink(Receipts.Records(env, ms));
    if ReceiptIssues(env, ms) == {} {
      forall m | m in ms
        ensures Standing(env, ms, m)
      {
        var r, c := ReceiptOfMessage(env, ms, m);
      }
    }
    if AllStanding(env, ms) {
      StandingIsSilent(env, ms);
    }
  }

  lemma ReceiptOfMessage(env: Environment, ms: set<Message>, m: Message) returns (r: Receipt, c: Candidate)
    requires ReceiptIssues(env, ms) == {} && m in ms
    ensures Stands(env, ms, m, r, c)
  {
    var rs := Receipts.Records(env, ms);
    SilentReceiptsAdmitted(env, ms);
    SilentGroupsLink(rs);
    var x := Receipts.Judge(env, m).receipt;
    var i := x.proposal.interaction;
    assert x in rs && i in Receipts.Interactions(rs);
    c := Receipts.CandidatesFrom(rs, {})[i];
    Receipts.CandidatesKeyed(rs, {});
    ReceiptCandidateIff(env, ms, i, c);
    r :| Uncontested(env, ms, r) && i == c.handoff.interaction && StandsFor(env, ms, r, c);
    ReceiptAdmittedIff(env, m, x);
    assert ReceiptInView(env, ms, x);
  }

  lemma StandingIsSilent(env: Environment, ms: set<Message>)
    requires AllStanding(env, ms)
    ensures ReceiptIssues(env, ms) == {}
  {
    var rs := Receipts.Records(env, ms);
    SilentReceiptsAdmitted(env, ms);
    SilentGroupsLink(rs);
    forall m | m in ms
      ensures Receipts.Judge(env, m).Admitted?
      ensures Receipts.Judge(env, m).receipt.proposal.interaction in Receipts.CandidatesFrom(rs, Receipts.TaintedIds(env, ms))
    {
      assert Standing(env, ms, m);
      var r, c :| Stands(env, ms, m, r, c);
      ReceiptAdmittedIff(env, m, r);
      ReceiptCandidateIff(env, ms, c.handoff.interaction, c);
    }
  }

  // ---------- the whole view ----------

  /** The message is evidence of this supported handoff. */
  ghost predicate Supports(rep: Representation, env: Environment, ms: set<Message>, m: Message, c: Candidate) {
    if rep == PR then exists r :: Stands(env, Read(rep, ms), m, r, c)
    else exists s, r :: InPair(rep, env, Read(rep, ms), m, s, r) && s.body.handoff == c.handoff
                        && r.body.decision == Some(c.decision) && r.body.decidedAt == Some(c.decidedAt)
  }

  ghost predicate SupportsSome(rep: Representation, env: Environment, ms: set<Message>, m: Message) {
    exists c :: Supports(rep, env, ms, m, c)
  }

  ghost predicate EndsALine(rep: Representation, env: Environment, ms: set<Message>, c: Candidate) {
    exists line :: IsLine(env.skew, line) && AllSupported(rep, env, ms, line) && line[|line| - 1] == c
  }

  lemma AdmissionIsClean(rep: Representation, env: Environment, ms: set<Message>)
    ensures AdmissionIssues(rep, env, ms) == {} <==>
            forall m {:trigger SupportsSome(rep, env, ms, m)} | m in Read(rep, ms) :: SupportsSome(rep, env, ms, m)
  {
    assert InProfile(rep, ms) == Read(rep, ms);
    forall m
      ensures SupportsSome(rep, env, ms, m) <==>
              if rep == PR then Standing(env, Read(rep, ms), m) else Matched(rep, env, Read(rep, ms), m)
    {
      if rep == PR {
        StandingSupports(env, ms, m);
      } else {
        PairSupports(rep, env, ms, m);
      }
    }
    if rep == PR {
      CleanReceipts(env, Read(rep, ms));
      assert AdmissionIssues(rep, env, ms) == ReceiptIssues(env, Read(rep, ms));
    } else {
      CleanRecords(rep, env, Read(rep, ms));
      assert AdmissionIssues(rep, env, ms) == RecordIssues(rep, env, Read(rep, ms));
    }
  }

  lemma StandingSupports(env: Environment, ms: set<Message>, m: Message)
    ensures Standing(env, Read(PR, ms), m) <==> SupportsSome(PR, env, ms, m)
  {
    if r, c :| Stands(env, Read(PR, ms), m, r, c) {
      assert Supports(PR, env, ms, m, c);
    }
  }

  lemma PairSupports(rep: Representation, env: Environment, ms: set<Message>, m: Message)
    requires rep != PR
    ensures Matched(rep, env, Read(rep, ms), m) <==> SupportsSome(rep, env, ms, m)
  {
    if s, r :| InPair(rep, env, Read(rep, ms), m, s, r) {
      assert r.body.decision.Some? && r.body.decidedAt.Some? by {
        var m' :| m' in Read(rep, ms) && RecordAccepted(rep, env, m', r);
      }
      assert Supports(rep, env, ms, m, Candidate(s.body.handoff, r.body.decision.value, r.body.decidedAt.value));
    }
  }

  lemma RelationsAreClean(rep: Representation, env: Environment, ms: set<Message>, invalid: set<Id>)
    ensures RelationIssues(CandidatesOf(rep, env, ms), invalid, env.skew) == {} <==>
            forall c | Supported(rep, env, ms, c) :: EndsALine(rep, env, ms, c)
  {
    var candidates := CandidatesOf(rep, env, ms);
    if RelationIssues(candidates, invalid, env.skew) == {} {
      forall c | Supported(rep, env, ms, c)
        ensures EndsALine(rep, env, ms, c)
      {
        SupportedIsOrdered(rep, env, ms, invalid, c);
      }
    }
    if forall c | Supported(rep, env, ms, c) :: EndsALine(rep, env, ms, c) {
      forall i | i in candidates
        ensures Failure(candidates, invalid, env.skew, i) == None
      {
        CandidateIff(rep, env, ms, i, candidates[i]);
        EmittedIffLine(rep, env, ms, invalid, candidates[i]);
      }
    }
  }

  lemma SupportedIsOrdered(rep: Representation, env: Environment, ms: set<Message>, invalid: set<Id>, c: Candidate)
    requires RelationIssues(CandidatesOf(rep, env, ms), invalid, env.skew) == {} && Supported(rep, env, ms, c)
    ensures EndsALine(rep, env, ms, c)
  {
    var i := c.handoff.interaction;
    CandidateIff(rep, env, ms, i, c);
    FailureIsReported(CandidatesOf(rep, env, ms), invalid, env.skew, i);
    EmittedIffLine(rep, env, ms, invalid, c);
  }

  lemma FailureIsReported(c: Candidates, invalid: set<Id>, skew: nat, i: Id)
    requires i in c
    ensures i in Emitted(c, invalid, skew) || RelationIssues(c, invalid, skew) != {}
  {
    if Failure(c, invalid, skew, i).Some? {
      assert Issue(Failure(c, invalid, skew, i).value, Some(i)) in RelationIssues(c, invalid, skew);
    }
  }

  /**
   Nothing to report: the report is free of issues if and only if there is evidence, all of it of one
   representation, every message of it supports a handoff, and every supported handoff ends a line
   of supported handoffs that starts at a parentless delegation.
   */
  lemma NoIssueIff(rep: Representation, env: Environment, ms: set<Message>)
    ensures IssuesOf(rep, env, ms) == {} <==>
            && Read(rep, ms) != {} && Unmixed(rep, ms)
            && (forall m {:trigger SupportsSome(rep, env, ms, m)} | m in Read(rep, ms) :: SupportsSome(rep, env, ms, m))
            && (forall c | Supported(rep, env, ms, c) :: EndsALine(rep, env, ms, c))
  {
    UnmixedMeaning(rep, ms);
    AdmissionIsClean(rep, env, ms);
    RelationsAreClean(rep, env, ms, InvalidOf(rep, env, ms));
    ThreeParts(rep, env, ms);
  }

  lemma ThreeParts(rep: Representation, env: Environment, ms: set<Message>)
    ensures IssuesOf(rep, env, ms) == {} <==>
            && Read(rep, ms) != {} && !Mixed(rep, ms) && AdmissionIssues(rep, env, ms) == {}
            && RelationIssues(CandidatesOf(rep, env, ms), InvalidOf(rep, env, ms), env.skew) == {}
  {
    assert InProfile(rep, ms) == Read(rep, ms);
    EmptyUnion(ViewIssues(rep, ms), AdmissionIssues(rep, env, ms),
               if Mixed(rep, ms) then {} else RelationIssues(CandidatesOf(rep, env, ms), InvalidOf(rep, env, ms), env.skew));
    if Mixed(rep, ms) {
      assert Issue(PayloadKindMismatch, None) in ViewIssues(rep, ms);
    }
    if InProfile(rep, ms) == {} {
      assert Issue(EvidenceMissing, None) in ViewIssues(rep, ms);
    }
  }

  lemma EmptyUnion(a: set<Issue>, b: set<Issue>, c: set<Issue>)
    ensures a + b + c == {} <==> a == {} && b == {} && c == {}
  {
    assert a <= a + b + c && b <= a + b + c && c <= a + b + c;
  }
}
