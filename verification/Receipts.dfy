/**
 Validation of paired receipts (PR): what one message establishes, how receipts are selected,
 and how a parent reference, which is a receipt digest, is turned back into an interaction id.
 */
module Receipts {
  import opened Common
  import opened Model
  import opened Sequence
  import opened Relation

  datatype Outcome = Refused(issue: Issue) | OutOfProfile(interaction: Id) | Admitted(receipt: Receipt)

  /** The store must identify one endpoint, not none and not both. */
  predicate HolderKnown(env: Environment, store: Id, p: Proposal) {
    env.StoreBound(store, p.sender.principal, Sender) != env.StoreBound(store, p.receiver.principal, Receiver)
  }

  predicate SignaturesOk(r: Receipt, senderKey: nat, receiverKey: nat) {
    && r.senderSignature == ProposalSignature(senderKey, r.proposal)
    && r.receiverSignature ==
       CompletionSignature(receiverKey, r.proposal, r.boundSenderSignature, r.decision, r.reason, r.decidedAt)
  }

  /** The checks on one message, in the source's order. */
  function Judge(env: Environment, m: Message): Outcome {
    if !m.payload.ReceiptPayload? || !m.payload.receipt.WellFormed() then Refused(Issue(MalformedEvidence, None))
    else
      var r := m.payload.receipt;
      var p := r.proposal;
      var i := p.interaction;
      match (env.ReceiptKey(p.sender), env.ReceiptKey(p.receiver))
      case (Some(senderKey), Some(receiverKey)) =>
        if !SignaturesOk(r, senderKey, receiverKey) then Refused(Issue(SignatureInvalid, Some(i)))
        else if !HolderKnown(env, m.origin, p) then Refused(Issue(StoreBindingInvalid, Some(i)))
        else if p.nonce != i then OutOfProfile(i)
        else if ExceedsWithSkew(p.createdAt, m.sentAt, env.skew) || ExceedsWithSkew(r.decidedAt, m.sentAt, env.skew)
        then Refused(Issue(TemporalInconsistency, Some(i)))
        else if ExceedsWithSkew(r.decidedAt, env.cutoff, env.skew) then Refused(Issue(FutureDecision, Some(i)))
        else Admitted(r)
      case _ => Refused(Issue(UnknownSigner, Some(i)))
  }

  // ---------- what a set of messages establishes ----------

  ghost function Records(env: Environment, ms: set<Message>): set<Receipt> {
    set m | m in ms && Judge(env, m).Admitted? :: Judge(env, m).receipt
  }

  ghost function TaintedIds(env: Environment, ms: set<Message>): set<Id> {
    set m | m in ms && Judge(env, m).OutOfProfile? :: Judge(env, m).interaction
  }

  ghost function Refusals(env: Environment, ms: set<Message>): set<Issue> {
    set m | m in ms && Judge(env, m).Refused? :: Judge(env, m).issue
  }

  ghost function MessageIssues(env: Environment, ms: set<Message>): set<Issue> {
    Refusals(env, ms) + set i | i in TaintedIds(env, ms) :: Issue(ProfileViolation, Some(i))
  }

  function Interactions(rs: set<Receipt>): set<Id> {
    set r | r in rs :: r.proposal.interaction
  }

  function Named(rs: set<Receipt>, i: Id): set<Receipt> {
    set r | r in rs && r.proposal.interaction == i
  }

  function Claims(rs: set<Receipt>): set<Claim> {
    set r | r in rs :: (r.proposal.SenderSlot(), r.proposal.interaction)
  }

  /** The interactions with exactly one receipt, unopposed and untainted. */
  ghost predicate Sole(rs: set<Receipt>, tainted: set<Id>, i: Id) {
    i !in tainted && |Named(rs, i)| == 1 && i !in Conflicts(Claims(rs))
  }

  ghost function SelectedReceipts(rs: set<Receipt>, tainted: set<Id>): map<Id, Receipt> {
    map i | i in Interactions(rs) && Sole(rs, tainted, i) :: TheReceipt(rs, i)
  }

  ghost function TheReceipt(rs: set<Receipt>, i: Id): (r: Receipt)
    requires |Named(rs, i)| == 1
    ensures Named(rs, i) == {r}
  {
    var r :| r in Named(rs, i);
    Singleton(Named(rs, i), r);
    r
  }

  /** The interaction that a parent digest names among the selected receipts. */
  function ParentInteraction(selected: map<Id, Receipt>, parent: Digest): Option<Id> {
    if parent.ReceiptDigest? && parent.receipt.proposal.interaction in selected
       && selected[parent.receipt.proposal.interaction] == parent.receipt
    then Some(parent.receipt.proposal.interaction) else None
  }

  function DecodeHandoff(p: Proposal, previous: Option<Id>): Handoff {
    Handoff(p.interaction, p.sender, p.receiver, p.event, p.sequence, previous, p.scope, p.lineage,
            p.version, p.statusId, p.createdAt, p.requestHash)
  }

  /** The handoff a selected receipt stands for, or why its parent reference does not resolve. */
  function Link(known: set<Digest>, selected: map<Id, Receipt>, r: Receipt): Result<Candidate, IssueCode> {
    match r.proposal.previousReceipt
    case None => Ok(Candidate(DecodeHandoff(r.proposal, None), r.decision, r.decidedAt))
    case Some(parent) =>
      match ParentInteraction(selected, parent)
      case Some(i) => Ok(Candidate(DecodeHandoff(r.proposal, Some(i)), r.decision, r.decidedAt))
      case None => Err(if parent in known then ParentInvalid else ParentMissing)
  }

  function DigestsOf(rs: set<Receipt>): set<Digest> {
    set r | r in rs :: r.ReceiptId()
  }

  ghost function CandidatesFrom(rs: set<Receipt>, tainted: set<Id>): Candidates {
    var selected := SelectedReceipts(rs, tainted);
    map i | i in selected && Link(DigestsOf(rs), selected, selected[i]).Ok? :: Link(DigestsOf(rs), selected, selected[i]).value
  }

  ghost function SelectionIssues(rs: set<Receipt>, tainted: set<Id>): set<Issue> {
    set i | i in Interactions(rs) && i !in tainted && |Named(rs, i)| != 1 :: Issue(Equivocation, Some(i))
  }

  ghost function LinkIssues(rs: set<Receipt>, tainted: set<Id>): set<Issue> {
    var selected := SelectedReceipts(rs, tainted);
    set i | i in selected && Link(DigestsOf(rs), selected, selected[i]).Err?
      :: Issue(Link(DigestsOf(rs), selected, selected[i]).error, Some(i))
  }

  ghost function GroupIssues(rs: set<Receipt>, tainted: set<Id>): set<Issue> {
    Equivocations(Conflicts(Claims(rs))) + (SelectionIssues(rs, tainted) + LinkIssues(rs, tainted))
  }

  function Equivocations(conflicts: set<Id>): set<Issue> {
    set i | i in conflicts :: Issue(Equivocation, Some(i))
  }

  lemma OneMoreRecord(env: Environment, ms: set<Message>, m: Message)
    ensures Records(env, ms + {m}) == Records(env, ms) + (match Judge(env, m) case Admitted(r) => {r} case _ => {})
  {
    var more := ms + {m};
    assert forall x :: x in more <==> x in ms || x == m;
  }

  lemma OneMoreTaint(env: Environment, ms: set<Message>, m: Message)
    ensures TaintedIds(env, ms + {m}) ==
            TaintedIds(env, ms) + (match Judge(env, m) case OutOfProfile(i) => {i} case _ => {})
  {
    var more := ms + {m};
    assert forall x :: x in more <==> x in ms || x == m;
  }

  lemma OneMoreRefusal(env: Environment, ms: set<Message>, m: Message)
    ensures Refusals(env, ms + {m}) ==
            Refusals(env, ms) + (match Judge(env, m) case Refused(issue) => {issue} case _ => {})
  {
    var more := ms + {m};
    assert forall x :: x in more <==> x in ms || x == m;
  }

  lemma OneMoreMessage(env: Environment, ms: set<Message>, m: Message)
    ensures Records(env, ms + {m}) == Records(env, ms) + (match Judge(env, m) case Admitted(r) => {r} case _ => {})
    ensures TaintedIds(env, ms + {m}) ==
            TaintedIds(env, ms) + (match Judge(env, m) case OutOfProfile(i) => {i} case _ => {})
    ensures MessageIssues(env, ms + {m}) ==
            MessageIssues(env, ms) + (match Judge(env, m)
                                      case Refused(issue) => {issue}
                                      case OutOfProfile(i) => {Issue(ProfileViolation, Some(i))}
                                      case _ => {})
  {
    OneMoreRecord(env, ms, m);
    OneMoreTaint(env, ms, m);
    OneMoreRefusal(env, ms, m);
  }

  /** The same for the messages before and after the next one of a sequence. */
  lemma NextMessage(env: Environment, messages: seq<Message>, k: nat)
    requires k < |messages|
    ensures var ms, more := Elems(messages[..k]), Elems(messages[..k + 1]);
      && Records(env, more) == Records(env, ms) + (match Judge(env, messages[k]) case Admitted(r) => {r} case _ => {})
      && TaintedIds(env, more) ==
         TaintedIds(env, ms) + (match Judge(env, messages[k]) case OutOfProfile(i) => {i} case _ => {})
      && MessageIssues(env, more) ==
         MessageIssues(env, ms) + (match Judge(env, messages[k])
                                   case Refused(issue) => {issue}
                                   case OutOfProfile(i) => {Issue(ProfileViolation, Some(i))}
                                   case _ => {})
  {
    assert messages[..k + 1] == messages[..k] + [messages[k]];
    assert Elems(messages[..k + 1]) == Elems(messages[..k]) + {messages[k]};
    OneMoreMessage(env, Elems(messages[..k]), messages[k]);
  }

  // ---------- the loops ----------

  method Collect(messages: seq<Message>, env: Environment, issues: set<Issue>)
    returns (aggregates: set<Receipt>, tainted: set<Id>, issues': set<Issue>)
    ensures aggregates == Records(env, Elems(messages))
    ensures tainted == TaintedIds(env, Elems(messages))
    ensures issues' == issues + MessageIssues(env, Elems(messages))
  {
    aggregates, tainted, issues' := {}, {}, issues;
    var k := 0;
    while k < |messages|
      invariant 0 <= k <= |messages|
      invariant aggregates == Records(env, Elems(messages[..k]))
      invariant tainted == TaintedIds(env, Elems(messages[..k]))
      invariant issues' == issues + MessageIssues(env, Elems(messages[..k]))
      decreases |messages| - k
    {
      NextMessage(env, messages, k);
      match Judge(env, messages[k]) {
        case Refused(issue) => issues' := issues' + {issue};
        case OutOfProfile(i) =>
          tainted := tainted + {i};
          issues' := issues' + {Issue(ProfileViolation, Some(i))};
        case Admitted(r) => aggregates := aggregates + {r};
      }
      k := k + 1;
    }
    assert messages[..k] == messages;
  }

  /** The selection along a given order of interactions. */
  ghost function SelectAlong(rs: set<Receipt>, tainted: set<Id>, order: seq<Id>): (map<Id, Receipt>, set<Issue>) {
    if order == [] then (map[], {})
    else
      var i := order[|order| - 1];
      var (selected, issues) := SelectAlong(rs, tainted, order[..|order| - 1]);
      if i in tainted then (selected, issues)
      else if |Named(rs, i)| != 1 then (selected, issues + {Issue(Equivocation, Some(i))})
      else if i in Conflicts(Claims(rs)) then (selected, issues)
      else (selected[i := TheReceipt(rs, i)], issues)
  }

  lemma {:induction false} SelectAlongMeaning(rs: set<Receipt>, tainted: set<Id>, order: seq<Id>)
    ensures SelectAlong(rs, tainted, order).0 == map i | i in order && Sole(rs, tainted, i) :: TheReceipt(rs, i)
    ensures SelectAlong(rs, tainted, order).1 ==
            set i | i in order && i !in tainted && |Named(rs, i)| != 1 :: Issue(Equivocation, Some(i))
  {
    if order != [] {
      var n := |order| - 1;
      assert order == order[..n] + [order[n]];
      SelectAlongMeaning(rs, tainted, order[..n]);
    }
  }

  /** The loop that keeps the interactions with one unopposed receipt. */
  method SelectLoop(rs: set<Receipt>, tainted: set<Id>, conflicts: set<Id>, order: seq<Id>, issues: set<Issue>)
    returns (selected: map<Id, Receipt>, issues': set<Issue>)
    requires conflicts == Conflicts(Claims(rs))
    ensures selected == SelectAlong(rs, tainted, order).0
    ensures issues' == issues + SelectAlong(rs, tainted, order).1
  {
    selected, issues' := map[], issues;
    var k := 0;
    while k < |order|
      invariant 0 <= k <= |order|
      invariant selected == SelectAlong(rs, tainted, order[..k]).0
      invariant issues' == issues + SelectAlong(rs, tainted, order[..k]).1
    {
      var i := order[k];
      assert order[..k + 1][..k] == order[..k];
      if i !in tainted {
        if |Named(rs, i)| != 1 {
          issues' := issues' + {Issue(Equivocation, Some(i))};
        } else if i !in conflicts {
          var r :| r in Named(rs, i);
          selected := selected[i := r];
        }
      }
      k := k + 1;
    }
    assert order[..k] == order;
  }

  /** The inverse of the selection: which interaction each selected receipt digest belongs to. */
  function InverseIds(selected: map<Id, Receipt>): map<Digest, Id>
    requires forall i | i in selected :: selected[i].proposal.interaction == i
  {
    map i | i in selected :: selected[i].ReceiptId() := i
  }

  lemma InverseResolves(selected: map<Id, Receipt>, parent: Digest)
    requires forall i | i in selected :: selected[i].proposal.interaction == i
    ensures ParentInteraction(selected, parent) ==
            if parent in InverseIds(selected) then Some(InverseIds(selected)[parent]) else None
  {
    if parent in InverseIds(selected) {
      var i :| i in selected && selected[i].ReceiptId() == parent;
    }
  }

  datatype Raised = EvidenceError

  ghost predicate FiledByInteraction(selected: map<Id, Receipt>) {
    forall i | i in selected :: selected[i].proposal.interaction == i
  }

  /** The links along a given order of interactions. */
  ghost function LinkAlong(known: set<Digest>, selected: map<Id, Receipt>, order: seq<Id>): (Candidates, set<Issue>)
    requires forall i | i in order :: i in selected
  {
    if order == [] then (map[], {})
    else
      var i := order[|order| - 1];
      var (candidates, issues) := LinkAlong(known, selected, order[..|order| - 1]);
      match Link(known, selected, selected[i])
      case Ok(candidate) => (candidates[i := candidate], issues)
      case Err(code) => (candidates, issues + {Issue(code, Some(i))})
  }

  lemma {:induction false} LinkAlongMeaning(known: set<Digest>, selected: map<Id, Receipt>, order: seq<Id>)
    requires forall i | i in order :: i in selected
    ensures LinkAlong(known, selected, order).0 ==
            map i | i in order && Link(known, selected, selected[i]).Ok? :: Link(known, selected, selected[i]).value
    ensures LinkAlong(known, selected, order).1 ==
            set i | i in order && Link(known, selected, selected[i]).Err?
              :: Issue(Link(known, selected, selected[i]).error, Some(i))
  {
    if order != [] {
      var n := |order| - 1;
      assert order == order[..n] + [order[n]];
      LinkAlongMeaning(known, selected, order[..n]);
    }
  }

  ghost predicate AllValid(c: Candidates) {
    forall i | i in c :: c[i].handoff.Valid()
  }

  method LinkOne(known: set<Digest>, ids: map<Digest, Id>, ghost selected: map<Id, Receipt>, r: Receipt)
    returns (linked: Result<Candidate, IssueCode>)
    requires FiledByInteraction(selected) && ids == InverseIds(selected)
    ensures linked == Link(known, selected, r)
  {
    var parent := r.proposal.previousReceipt;
    if parent == None {
      return Ok(Candidate(DecodeHandoff(r.proposal, None), r.decision, r.decidedAt));
    }
    InverseResolves(selected, parent.value);
    if parent.value in ids {
      return Ok(Candidate(DecodeHandoff(r.proposal, Some(ids[parent.value])), r.decision, r.decidedAt));
    }
    return Err(if parent.value in known then ParentInvalid else ParentMissing);
  }

  method LinkLoop(known: set<Digest>, selected: map<Id, Receipt>, order: seq<Id>, issues: set<Issue>)
    returns (result: Result<(Candidates, set<Issue>), Raised>)
    requires FiledByInteraction(selected) && Ascending(order) && forall i | i in order :: i in selected
    ensures result.Err? <==> !AllValid(LinkAlong(known, selected, order).0)
    ensures result.Ok? ==> result.value.0 == LinkAlong(known, selected, order).0
    ensures result.Ok? ==> result.value.1 == issues + LinkAlong(known, selected, order).1
  {
    var ids := InverseIds(selected);
    var candidates: Candidates := map[];
    var found := issues;
    var k := 0;
    while k < |order|
      invariant 0 <= k <= |order|
      invariant candidates == LinkAlong(known, selected, order[..k]).0
      invariant AllValid(candidates)
      invariant found == issues + LinkAlong(known, selected, order[..k]).1
      decreases |order| - k
    {
      var i := order[k];
      assert order[..k + 1][..k] == order[..k];
      var linked := LinkOne(known, ids, selected, selected[i]);
      match linked {
        case Err(code) => found := found + {Issue(code, Some(i))};
        case Ok(candidate) =>
          if !candidate.handoff.Valid() {
            LinkAlongMeaning(known, selected, order);
            assert LinkAlong(known, selected, order).0[i] == candidate;
            return Err(EvidenceError);
          }
          candidates := candidates[i := candidate];
      }
      k := k + 1;
    }
    assert order[..k] == order;
    return Ok((candidates, found));
  }

  lemma SelectedKeyed(rs: set<Receipt>, tainted: set<Id>)
    ensures FiledByInteraction(SelectedReceipts(rs, tainted))
    ensures forall i | i in SelectedReceipts(rs, tainted) :: SelectedReceipts(rs, tainted)[i] in rs
  {
    forall i | i in SelectedReceipts(rs, tainted)
      ensures var r := SelectedReceipts(rs, tainted)[i]; r in rs && r.proposal.interaction == i
    {
      assert TheReceipt(rs, i) in Named(rs, i);
    }
  }

  lemma CandidatesKeyed(rs: set<Receipt>, tainted: set<Id>)
    ensures Keyed(CandidatesFrom(rs, tainted))
  {
    SelectedKeyed(rs, tainted);
  }

  // ---------- when validation raises ----------

  /** Some message in view carries the receipt and passes every check on it. */
  ghost predicate InView(env: Environment, ms: set<Message>, r: Receipt) {
    exists m | m in ms :: Judge(env, m) == Admitted(r)
  }

  /**
   The only receipt in view for its interaction, and the only interaction in its sender's slot,
   with no authenticated receipt of another profile against it.
   */
  ghost predicate Unopposed(env: Environment, ms: set<Message>, r: Receipt) {
    && InView(env, ms, r)
    && forall m | m in ms ::
         match Judge(env, m)
         case Refused(_) => true
         case OutOfProfile(i) => i != r.proposal.interaction
         case Admitted(other) =>
           (other.proposal.interaction == r.proposal.interaction <==> other == r)
           && (other.proposal.SenderSlot() == r.proposal.SenderSlot() ==> other == r)
  }

  /** One principal as both endpoints, with its own signature in either role. */
  predicate SelfReceipt(r: Receipt) {
    r.proposal.sender.principal == r.proposal.receiver.principal
  }

  /** An unopposed receipt that names one principal twice and whose parent, if it names one, is unopposed too. */
  ghost predicate Raising(env: Environment, ms: set<Message>, r: Receipt) {
    && SelfReceipt(r) && Unopposed(env, ms, r)
    && match r.proposal.previousReceipt
       case None => true
       case Some(parent) => parent.ReceiptDigest? && Unopposed(env, ms, parent.receipt)
  }

  lemma RecordsInView(env: Environment, ms: set<Message>, r: Receipt)
    ensures r in Records(env, ms) <==> InView(env, ms, r)
  {
    if InView(env, ms, r) {
      var m :| m in ms && Judge(env, m) == Admitted(r);
      assert Judge(env, m).receipt in Records(env, ms);
    }
  }

  lemma UnopposedIsSole(env: Environment, ms: set<Message>, r: Receipt)
    requires Unopposed(env, ms, r)
    ensures Named(Records(env, ms), r.proposal.interaction) == {r}
    ensures Sole(Records(env, ms), TaintedIds(env, ms), r.proposal.interaction)
  {
    var rs, i := Records(env, ms), r.proposal.interaction;
    RecordsInView(env, ms, r);
    forall other | other in rs
      ensures other.proposal.interaction == i <==> other == r
      ensures other.proposal.SenderSlot() == r.proposal.SenderSlot() ==> other == r
    {
      RecordsInView(env, ms, other);
      var m :| m in ms && Judge(env, m) == Admitted(other);
    }
    assert Named(rs, i) == {r};
    forall k, j: Id | (k, i) in Claims(rs) && (k, j) in Claims(rs)
      ensures j == i
    {
      var a :| a in rs && (a.proposal.SenderSlot(), a.proposal.interaction) == (k, i);
      var b :| b in rs && (b.proposal.SenderSlot(), b.proposal.interaction) == (k, j);
      assert a == r;
    }
    assert !Contested(Claims(rs), i);
    assert i !in Conflicts(Claims(rs));
  }

  lemma SoleIsUnopposed(env: Environment, ms: set<Message>, i: Id)
    requires i in Interactions(Records(env, ms)) && Sole(Records(env, ms), TaintedIds(env, ms), i)
    ensures Unopposed(env, ms, TheReceipt(Records(env, ms), i))
    ensures TheReceipt(Records(env, ms), i).proposal.interaction == i
  {
    var rs := Records(env, ms);
    var r := TheReceipt(rs, i);
    assert r in Named(rs, i);
    RecordsInView(env, ms, r);
    forall m | m in ms && Judge(env, m).OutOfProfile?
      ensures Judge(env, m).interaction != i
    {
      assert Judge(env, m).interaction in TaintedIds(env, ms);
    }
    forall m | m in ms && Judge(env, m).Admitted?
      ensures var other := Judge(env, m).receipt;
        && (other.proposal.interaction == i <==> other == r)
        && (other.proposal.SenderSlot() == r.proposal.SenderSlot() ==> other == r)
    {
      SlotsOfSole(env, ms, i, m);
    }
  }

  lemma SlotsOfSole(env: Environment, ms: set<Message>, i: Id, m: Message)
    requires i in Interactions(Records(env, ms)) && Sole(Records(env, ms), TaintedIds(env, ms), i)
    requires m in ms && Judge(env, m).Admitted?
    ensures var r, other := TheReceipt(Records(env, ms), i), Judge(env, m).receipt;
      && (other.proposal.interaction == i <==> other == r)
      && (other.proposal.SenderSlot() == r.proposal.SenderSlot() ==> other == r)
  {
    var rs := Records(env, ms);
    var r, other := TheReceipt(rs, i), Judge(env, m).receipt;
    assert other in rs && r in Named(rs, i);
    if other.proposal.interaction == i {
      assert other in Named(rs, i);
    }
    if other.proposal.SenderSlot() == r.proposal.SenderSlot() && other.proposal.interaction != i {
      SharedSlotConflicts(Claims(rs), (r.proposal.SenderSlot(), i), (other.proposal.SenderSlot(), other.proposal.interaction));
      assert false;
    }
  }

  /** The selection is exactly the unopposed receipts, each under its interaction. */
  lemma SelectedIsUnopposed(env: Environment, ms: set<Message>, r: Receipt)
    ensures var selected := SelectedReceipts(Records(env, ms), TaintedIds(env, ms)); var i := r.proposal.interaction;
      i in selected && selected[i] == r <==> Unopposed(env, ms, r)
  {
    var rs, tainted, i := Records(env, ms), TaintedIds(env, ms), r.proposal.interaction;
    if Unopposed(env, ms, r) {
      UnopposedIsSole(env, ms, r);
      RecordsInView(env, ms, r);
      assert r in Named(rs, i);
    }
    if i in SelectedReceipts(rs, tainted) && TheReceipt(rs, i) == r {
      SoleIsUnopposed(env, ms, i);
    }
  }

  /** A receipt that parses stands for a valid handoff exactly if its endpoints are two principals. */
  lemma DecodedValidity(p: Proposal, previous: Option<Id>)
    requires p.sequence <= MAX_SAFE_INTEGER && 1 <= p.version <= MAX_SAFE_INTEGER && p.scope.Valid()
    ensures DecodeHandoff(p, previous).Valid() <==> p.sender.principal != p.receiver.principal
  {
  }

  /** A parent reference resolves exactly to an unopposed receipt in view. */
  lemma ParentUnopposed(env: Environment, ms: set<Message>, parent: Digest)
    ensures ParentInteraction(SelectedReceipts(Records(env, ms), TaintedIds(env, ms)), parent).Some? <==>
              parent.ReceiptDigest? && Unopposed(env, ms, parent.receipt)
  {
    if parent.ReceiptDigest? {
      SelectedIsUnopposed(env, ms, parent.receipt);
    }
  }

  lemma InViewParses(env: Environment, ms: set<Message>, r: Receipt)
    requires InView(env, ms, r)
    ensures r.WellFormed()
  {
    var m :| m in ms && Judge(env, m) == Admitted(r);
  }

  lemma LinkedValidity(known: set<Digest>, selected: map<Id, Receipt>, r: Receipt)
    requires r.WellFormed() && Link(known, selected, r).Ok?
    ensures Link(known, selected, r).value.handoff.Valid() <==> !SelfReceipt(r)
  {
    DecodedValidity(r.proposal, Link(known, selected, r).value.handoff.previous);
  }

  lemma LinkedUnopposed(env: Environment, ms: set<Message>, r: Receipt)
    requires Unopposed(env, ms, r)
    ensures var rs := Records(env, ms); var selected := SelectedReceipts(rs, TaintedIds(env, ms));
      && (Link(DigestsOf(rs), selected, r).Ok? <==>
            match r.proposal.previousReceipt
            case None => true
            case Some(parent) => parent.ReceiptDigest? && Unopposed(env, ms, parent.receipt))
      && (Link(DigestsOf(rs), selected, r).Ok? ==>
            (Link(DigestsOf(rs), selected, r).value.handoff.Valid() <==> !SelfReceipt(r)))
  {
    var rs := Records(env, ms);
    var selected := SelectedReceipts(rs, TaintedIds(env, ms));
    InViewParses(env, ms, r);
    if r.proposal.previousReceipt.Some? {
      ParentUnopposed(env, ms, r.proposal.previousReceipt.value);
    }
    if Link(DigestsOf(rs), selected, r).Ok? {
      LinkedValidity(DigestsOf(rs), selected, r);
    }
  }

  /**
   Validating receipts raises if and only if an unopposed, linked receipt in view names one
   principal as both its endpoints: one such receipt takes the whole report with it.
   */
  lemma RaisesExactly(env: Environment, ms: set<Message>)
    ensures !AllValid(CandidatesFrom(Records(env, ms), TaintedIds(env, ms))) <==> exists r :: Raising(env, ms, r)
  {
    var rs, tainted := Records(env, ms), TaintedIds(env, ms);
    var selected, c := SelectedReceipts(rs, tainted), CandidatesFrom(rs, tainted);
    SelectedKeyed(rs, tainted);
    if i :| i in c && !c[i].handoff.Valid() {
      SelectedIsUnopposed(env, ms, selected[i]);
      LinkedUnopposed(env, ms, selected[i]);
      assert Raising(env, ms, selected[i]);
    }
    if r :| Raising(env, ms, r) {
      SelectedIsUnopposed(env, ms, r);
      LinkedUnopposed(env, ms, r);
      assert !c[r.proposal.interaction].handoff.Valid();
    }
  }

  lemma SelectionAssembled(rs: set<Receipt>, tainted: set<Id>, order: seq<Id>)
    requires forall i :: i in order <==> i in Interactions(rs)
    ensures SelectAlong(rs, tainted, order).0 == SelectedReceipts(rs, tainted)
    ensures FiledByInteraction(SelectedReceipts(rs, tainted))
  {
    SelectAlongMeaning(rs, tainted, order);
    SelectedKeyed(rs, tainted);
  }

  lemma SelectionIssuesAssembled(rs: set<Receipt>, tainted: set<Id>, order: seq<Id>)
    requires forall i :: i in order <==> i in Interactions(rs)
    ensures SelectAlong(rs, tainted, order).1 == SelectionIssues(rs, tainted)
  {
    SelectAlongMeaning(rs, tainted, order);
  }

  lemma LinksAssembled(rs: set<Receipt>, tainted: set<Id>, order: seq<Id>)
    requires forall i :: i in order <==> i in SelectedReceipts(rs, tainted)
    ensures LinkAlong(DigestsOf(rs), SelectedReceipts(rs, tainted), order).0 == CandidatesFrom(rs, tainted)
    ensures LinkAlong(DigestsOf(rs), SelectedReceipts(rs, tainted), order).1 == LinkIssues(rs, tainted)
  {
    LinkAlongMeaning(DigestsOf(rs), SelectedReceipts(rs, tainted), order);
  }

  lemma IssuesAssembled(a: set<Issue>, b: set<Issue>, c: set<Issue>, d: set<Issue>)
    ensures a + b + c + d == a + (b + (c + d))
  {
  }

  /** Everything after the per-message checks. */
  method ResolveReceipts(rs: set<Receipt>, tainted: set<Id>, issues: set<Issue>)
    returns (result: Result<(Candidates, set<Issue>), Raised>)
    ensures result.Err? <==> !AllValid(CandidatesFrom(rs, tainted))
    ensures result.Ok? ==> result.value == (CandidatesFrom(rs, tainted), issues + GroupIssues(rs, tainted))
  {
    var conflicts := FindConflicts(Claims(rs));
    var order := Sorted(Interactions(rs));
    var selected, found := SelectLoop(rs, tainted, conflicts, order, issues + Equivocations(conflicts));
    SelectionAssembled(rs, tainted, order);
    var order' := Sorted(selected.Keys);
    result := LinkLoop(DigestsOf(rs), selected, order', found);
    SelectionIssuesAssembled(rs, tainted, order);
    LinksAssembled(rs, tainted, order');
    IssuesAssembled(issues, Equivocations(conflicts), SelectionIssues(rs, tainted), LinkIssues(rs, tainted));
  }

  /** `_validate_receipt_messages`; it raises exactly when a receipt in view forces it to. */
  method ValidateReceiptMessages(messages: seq<Message>, env: Environment, issues: set<Issue>)
    returns (result: Result<(Candidates, set<Id>, set<Issue>), Raised>)
    ensures var rs, tainted := Records(env, Elems(messages)), TaintedIds(env, Elems(messages));
            && (result.Err? <==> !AllValid(CandidatesFrom(rs, tainted)))
            && (result.Err? <==> exists r :: Raising(env, Elems(messages), r))
            && (result.Ok? ==>
                  && result.value.0 == CandidatesFrom(rs, tainted)
                  && result.value.1 == tainted + (Interactions(rs) - CandidatesFrom(rs, tainted).Keys)
                  && result.value.2 == issues + MessageIssues(env, Elems(messages)) + GroupIssues(rs, tainted))
  {
    var aggregates, tainted, found := Collect(messages, env, issues);
    RaisesExactly(env, Elems(messages));
    var resolved := ResolveReceipts(aggregates, tainted, found);
    if resolved.Err? {
      return Err(resolved.error);
    }
    var candidates := resolved.value.0;
    return Ok((candidates, tainted + (Interactions(aggregates) - candidates.Keys), resolved.value.1));
  }
}
